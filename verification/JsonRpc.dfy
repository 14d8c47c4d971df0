/**
  JSON-RPC 2.0 messages as librpc/jrpc/jrpc.c builds and unpacks them, and the
  treatment of a request by a server.
 */
module JsonRpc {
  import opened Wrappers

  datatype Json =
    | JNull
    | JBool(b: bool)
    | JInt(i: int)
    | JString(s: string)
    | JArray(elements: seq<Json>)
    | JObject(members: map<string, Json>)

  const ERR_INVALID_REQUEST := -32600
  const ERR_METHOD_NOT_FOUND := -32601
  const ERR_INVALID_RESPONSE_ID := -32089
  const ERR_INVALID_RESPONSE := -32088
  const ERR_METHOD_ERROR := -30000

  const TWO_32 := 0x1_0000_0000
  const TWO_64 := 0x1_0000_0000_0000_0000

  function Get(obj: Json, name: string): Option<Json> {
    if obj.JObject? && name in obj.members then Some(obj.members[name]) else None
  }

  function WithMember(members: map<string, Json>, name: string, value: Option<Json>): map<string, Json> {
    match value
    case Some(v) => members[name := v]
    case None => members
  }

  // ---------------------------------------------------------------------
  // Building messages
  // ---------------------------------------------------------------------

  /** A request, or a notification when id is 0. */
  function MakeCall(name: string, params: Option<Json>, id: nat): Json {
    var members := map["jsonrpc" := JString("2.0"), "method" := JString(name)];
    JObject(WithMember(WithMember(members, "params", params), "id", if id == 0 then None else Some(JInt(id))))
  }

  /** Packing fails when the method has set no result. */
  function MakeResult(result: Option<Json>, id: nat): Option<Json> {
    match result
    case Some(r) => Some(JObject(map["jsonrpc" := JString("2.0"), "result" := r, "id" := JInt(id)]))
    case None => None
  }

  function MakeError(code: int, message: string, data: Option<Json>, id: nat): Json {
    var err := WithMember(map["code" := JInt(code), "message" := JString(message)], "data", data);
    JObject(map["jsonrpc" := JString("2.0"), "error" := JObject(err), "id" := if id == 0 then JNull else JInt(id)])
  }

  // ---------------------------------------------------------------------
  // Unpacking messages
  // ---------------------------------------------------------------------

  datatype Message =
    | Request(name: string, id: nat, params: Option<Json>)
    | ResultResponse(id: nat, result: Json)
    | ErrorResponse(id: nat, code: int, message: string, data: Option<Json>)
    | Invalid(err: int)

  predicate Version2(obj: Json) {
    Get(obj, "jsonrpc") == Some(JString("2.0"))
  }

  /** The low 32 bits, as written into a zeroed 64-bit size on a little-endian machine. */
  function Low32(i: int): nat {
    i % TWO_32
  }

  function ToInt32(i: int): int {
    var low := i % TWO_32;
    if low < 0x8000_0000 then low else low - TWO_32
  }

  function UnpackRequest(obj: Json, name: string): Message {
    match Get(obj, "id")
    case None => if Version2(obj) then Request(name, 0, Get(obj, "params")) else Invalid(ERR_INVALID_REQUEST)
    case Some(JInt(i)) =>
      if Version2(obj) then Request(name, Low32(i), Get(obj, "params")) else Invalid(ERR_INVALID_REQUEST)
    case Some(_) => Invalid(ERR_INVALID_REQUEST)
  }

  function UnpackError(error: Json, id: nat): Message {
    match (Get(error, "code"), Get(error, "message"))
    case (Some(JInt(c)), Some(JString(m))) => ErrorResponse(id, ToInt32(c), m, Get(error, "data"))
    case _ => Invalid(ERR_INVALID_RESPONSE)
  }

  function UnpackResponse(obj: Json, id: nat): Message {
    if !Version2(obj) then Invalid(ERR_INVALID_RESPONSE)
    else
      match (Get(obj, "result"), Get(obj, "error"))
      case (Some(r), None) => ResultResponse(id, r)
      case (None, Some(e)) => UnpackError(e, id)
      case _ => Invalid(ERR_INVALID_RESPONSE)
  }

  /** A message with a string member "method" is a request; any other is a response. */
  function Unpack(obj: Json): Message {
    match Get(obj, "method")
    case Some(JString(name)) => UnpackRequest(obj, name)
    case _ =>
      match Get(obj, "id")
      case Some(JInt(i)) => UnpackResponse(obj, i % TWO_64)
      case Some(JNull) => UnpackResponse(obj, 0)
      case _ => Invalid(ERR_INVALID_RESPONSE)
  }

  // ---------------------------------------------------------------------
  // The server
  // ---------------------------------------------------------------------

  // A method returns its status and the result it has set, if any.
  datatype Mapper = Mapper(methods: map<string, Option<Json> -> (int, Option<Json>)>, messages: map<int, string>)

  function MethodToCode(status: int): int {
    ERR_METHOD_ERROR + status % 256
  }

  function ErrorMessage(mapper: Mapper, status: int): string {
    if status % 256 in mapper.messages then mapper.messages[status % 256]
    else "method returned an unknow error"
  }

  /** The return code and the reply, if any, to a request. */
  function ServeRequest(mapper: Mapper, name: string, id: nat, params: Option<Json>): (int, Option<Json>) {
    if name !in mapper.methods then
      (ERR_METHOD_NOT_FOUND, Some(MakeError(ERR_METHOD_NOT_FOUND, "method was not found", None, id)))
    else
      var r := mapper.methods[name](params);
      if r.0 != 0 then
        var code := MethodToCode(r.0);
        (code, Some(MakeError(code, ErrorMessage(mapper, r.0), None, id)))
      else if id != 0 then (0, MakeResult(r.1, id))
      else (0, None)
  }

  // ---------------------------------------------------------------------
  // Properties of the messages
  // ---------------------------------------------------------------------

  lemma UnpackMakeCall(name: string, params: Option<Json>, id: nat)
    ensures Unpack(MakeCall(name, params, id)) == Request(name, id % TWO_32, params)
  {
    var obj := MakeCall(name, params, id);
    assert Get(obj, "method") == Some(JString(name)) && Version2(obj);
    assert Get(obj, "params") == params;
  }

  lemma UnpackMakeResult(r: Json, id: nat)
    requires id < TWO_64
    ensures Unpack(MakeResult(Some(r), id).value) == ResultResponse(id, r)
  {
    var obj := MakeResult(Some(r), id).value;
    assert Get(obj, "method") == None && Get(obj, "error") == None;
  }

  lemma UnpackMakeError(code: int, message: string, data: Option<Json>, id: nat)
    requires -0x8000_0000 <= code < 0x8000_0000 && id < TWO_64
    ensures Unpack(MakeError(code, message, data, id)) == ErrorResponse(id, code, message, data)
  {
    var obj := MakeError(code, message, data, id);
    assert Get(obj, "method") == None && Get(obj, "result") == None;
    var err := Get(obj, "error").value;
    assert Get(err, "data") == data;
  }

  // ---------------------------------------------------------------------
  // The members of the messages
  // ---------------------------------------------------------------------

  /** The members of section 4 of the JSON-RPC 2.0 Specification, and no others. */
  lemma CallMembers(name: string, params: Option<Json>, id: nat)
    ensures var obj := MakeCall(name, params, id);
            && obj.JObject?
            && obj.members.Keys == {"jsonrpc", "method"} + (if params.Some? then {"params"} else {}) + (if id != 0 then {"id"} else {})
            && obj.members["jsonrpc"] == JString("2.0") && obj.members["method"] == JString(name)
            && (params.Some? ==> obj.members["params"] == params.value)
            && (id != 0 ==> obj.members["id"] == JInt(id))
  {
    var obj := MakeCall(name, params, id);
    assert map["jsonrpc" := JString("2.0"), "method" := JString(name)].Keys == {"jsonrpc", "method"};
  }

  /** The members of section 5, and no others. */
  lemma ResultMembers(result: Json, id: nat)
    ensures var obj := MakeResult(Some(result), id);
            obj == Some(JObject(map["jsonrpc" := JString("2.0"), "result" := result, "id" := JInt(id)]))
    ensures MakeResult(None, id) == None
  {
  }

  /** The members of sections 5 and 5.1, and no others; the identifier 0 is sent as null. */
  lemma ErrorMembers(code: int, message: string, data: Option<Json>, id: nat)
    ensures var obj := MakeError(code, message, data, id);
            && obj.JObject? && obj.members.Keys == {"jsonrpc", "error", "id"} && obj.members["jsonrpc"] == JString("2.0")
            && obj.members["id"] == (if id == 0 then JNull else JInt(id))
            && obj.members["error"].JObject?
            && var e := obj.members["error"].members;
               && e.Keys == {"code", "message"} + (if data.Some? then {"data"} else {})
               && e["code"] == JInt(code) && e["message"] == JString(message) && (data.Some? ==> e["data"] == data.value)
  {
    assert map["code" := JInt(code), "message" := JString(message)].Keys == {"code", "message"};
  }

  /** Exactly these objects are taken for requests: a string "method", version 2.0, and an integer "id" if there is one. */
  lemma UnpackRequestExactly(obj: Json, name: string, id: nat, params: Option<Json>)
    ensures Unpack(obj) == Request(name, id, params) <==>
            && obj.JObject?
            && var ms := obj.members;
               && "method" in ms && ms["method"] == JString(name) && "jsonrpc" in ms && ms["jsonrpc"] == JString("2.0")
               && params == (if "params" in ms then Some(ms["params"]) else None)
               && if "id" in ms then ms["id"].JInt? && id == ms["id"].i % 0x1_0000_0000 else id == 0
  {
  }

  /** The identifier of a response: an integer cut to 64 bits, or null. */
  predicate ResponseId(ms: map<string, Json>, id: nat) {
    && !("method" in ms && ms["method"].JString?)
    && "jsonrpc" in ms && ms["jsonrpc"] == JString("2.0") && "id" in ms
    && ((ms["id"].JInt? && id == ms["id"].i % 0x1_0000_0000_0000_0000) || (ms["id"] == JNull && id == 0))
  }

  /** Exactly these objects are taken for results: no string "method", and "result" without "error". */
  lemma UnpackResultExactly(obj: Json, id: nat, result: Json)
    ensures Unpack(obj) == ResultResponse(id, result) <==>
            && obj.JObject? && ResponseId(obj.members, id)
            && "result" in obj.members && obj.members["result"] == result && "error" !in obj.members
  {
  }

  /** Exactly these objects are taken for errors: "error" without "result", with an integer code and a message. */
  lemma UnpackErrorExactly(obj: Json, id: nat, code: int, message: string, data: Option<Json>)
    ensures Unpack(obj) == ErrorResponse(id, code, message, data) <==>
            && obj.JObject? && ResponseId(obj.members, id)
            && "error" in obj.members && "result" !in obj.members && obj.members["error"].JObject?
            && var e := obj.members["error"].members;
               && "code" in e && e["code"].JInt? && "message" in e && e["message"] == JString(message)
               && (e["code"].i - code) % 0x1_0000_0000 == 0 && -0x8000_0000 <= code < 0x8000_0000
               && data == if "data" in e then Some(e["data"]) else None
  {
    if obj.JObject? && ResponseId(obj.members, id) && "error" in obj.members && "result" !in obj.members {
      var e := obj.members["error"];
      if Get(e, "code").Some? && Get(e, "code").value.JInt? {
        ToInt32Exactly(Get(e, "code").value.i, code);
      }
    }
  }

  lemma ToInt32Exactly(i: int, code: int)
    ensures ToInt32(i) == code <==> (i - code) % 0x1_0000_0000 == 0 && -0x8000_0000 <= code < 0x8000_0000
  {
  }

  /** Anything else is refused: an object with a string "method" as a request, the rest as a response. */
  lemma UnpackInvalidExactly(obj: Json)
    ensures Unpack(obj).Invalid? ==>
              Unpack(obj).err == if obj.JObject? && "method" in obj.members && obj.members["method"].JString? then -32600 else -32088
  {
  }

  /** What section 5 of the JSON-RPC 2.0 Specification expects: a reply that a client unpacks as a response to id. */
  predicate RespondsTo(reply: Json, id: nat) {
    match Unpack(reply)
    case ResultResponse(i, _) => i == id
    case ErrorResponse(i, _, _, _) => i == id
    case _ => false
  }

  predicate SetsNoResult(mapper: Mapper, name: string, params: Option<Json>) {
    name in mapper.methods && mapper.methods[name](params) == (0, None)
  }

  predicate Returns(mapper: Mapper, name: string, params: Option<Json>) {
    name in mapper.methods && mapper.methods[name](params).0 == 0 && mapper.methods[name](params).1.Some?
  }

  predicate Succeeds(mapper: Mapper, name: string, params: Option<Json>) {
    name in mapper.methods && mapper.methods[name](params).0 == 0
  }

  /**
    The server answers a request with one response to the same identifier,
    unless its method succeeds without setting a result.  A notification (id 0)
    is answered exactly when it fails, although section 4.1 of the JSON-RPC 2.0
    Specification forbids any reply to it.
   */
  lemma ServerAnswers(mapper: Mapper, name: string, id: nat, params: Option<Json>)
    requires id < TWO_32
    ensures var reply := ServeRequest(mapper, name, id, params).1;
            && (id != 0 ==> (reply == None <==> SetsNoResult(mapper, name, params)))
            && (id == 0 ==> (reply == None <==> Succeeds(mapper, name, params)))
            && (reply.Some? ==> RespondsTo(reply.value, id))
            && (reply.Some? && !Succeeds(mapper, name, params) ==> Unpack(reply.value).ErrorResponse?)
  {
    if name !in mapper.methods {
      UnpackMakeError(ERR_METHOD_NOT_FOUND, "method was not found", None, id);
    } else {
      var r := mapper.methods[name](params);
      if r.0 != 0 {
        UnpackMakeError(MethodToCode(r.0), ErrorMessage(mapper, r.0), None, id);
      } else if id != 0 && r.1.Some? {
        UnpackMakeResult(r.1.value, id);
      }
    }
  }

  /**
    What the client reads in the reply is what happened: the method was not found,
    or failed with a status that the low byte of the code carries, or returned the result.
   */
  lemma ReplyTellsOutcome(mapper: Mapper, name: string, id: nat, params: Option<Json>)
    requires id < TWO_32
    ensures var r := ServeRequest(mapper, name, id, params);
            && (name !in mapper.methods ==>
                  r.1.Some? && Unpack(r.1.value) == ErrorResponse(id, ERR_METHOD_NOT_FOUND, "method was not found", None))
            && (name in mapper.methods ==>
                  var (status, result) := mapper.methods[name](params);
                  && (status != 0 ==>
                        && r.1.Some? && Unpack(r.1.value) == ErrorResponse(id, r.0, ErrorMessage(mapper, status), None)
                        && r.0 - ERR_METHOD_ERROR == status % 256)
                  && (status == 0 ==> r.0 == 0)
                  && (status == 0 && id != 0 && result.Some? ==>
                        r.1.Some? && Unpack(r.1.value) == ResultResponse(id, result.value)))
  {
    if name !in mapper.methods {
      UnpackMakeError(ERR_METHOD_NOT_FOUND, "method was not found", None, id);
    } else {
      var r := mapper.methods[name](params);
      if r.0 != 0 {
        UnpackMakeError(MethodToCode(r.0), ErrorMessage(mapper, r.0), None, id);
      } else if id != 0 && r.1.Some? {
        UnpackMakeResult(r.1.value, id);
      }
    }
  }

}
