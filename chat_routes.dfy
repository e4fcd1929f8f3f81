/**
 * The request checks of the chat routes (`POST /api/chat/completions` and
 * `POST /api/chat/completions/non-stream`): message and model validation,
 * the parameter checks with their defaults, the parameters forwarded to
 * the completion service, and the mapping from a caught error to an HTTP
 * status.
 */
module ChatRoutes {
  import opened Common
  import opened JsValue

  const AllowedRoles: seq<string> := ["system", "user", "assistant", "function"]
  const AllowedModels: seq<string> := ["gpt-4o", "gpt-4o-mini", "gpt-4", "gpt-3.5-turbo"]
  const DefaultModel: string := "gpt-4o-mini"
  const DefaultTemperature: real := 0.2

  /** What a failing message reports; `index` is the message's position. */
  datatype MessageProblem =
    | NullishMessage                 // `msg.role` on undefined/null: a TypeError
    | MissingRoleOrContent
    | InvalidRole(role: JSValue)
    | ContentNotString

  /** The plain `Error`s the two validators throw. */
  datatype ValidationError =
    | MessagesNotArray               // "Messages must be an array"
    | MessagesEmpty                  // "Messages array cannot be empty"
    | BadMessage(index: nat, problem: MessageProblem)
    | UnsupportedModel(model: JSValue)

  /** The checks one message goes through, in the order the source makes them. */
  function CheckMessage(msg: JSValue): Option<MessageProblem>
  {
    match (Prop(msg, "role"), Prop(msg, "content"))
    case (Some(role), Some(content)) =>
      if !Truthy(role) || !Truthy(content) then Some(MissingRoleOrContent)
      else if !IsOneOf(role, AllowedRoles) then Some(InvalidRole(role))
      else if !content.JStr? then Some(ContentNotString)
      else None
    case _ => Some(NullishMessage)
  }

  /** A message that passes every check. */
  predicate ValidMessage(msg: JSValue) {
    msg.JObj? && "role" in msg.fields && "content" in msg.fields
    && IsOneOf(msg.fields["role"], AllowedRoles)
    && msg.fields["content"].JStr? && msg.fields["content"].s != ""
  }

  lemma CheckMessageIffValid(msg: JSValue)
    ensures CheckMessage(msg).None? <==> ValidMessage(msg)
  {
  }

  /** The first message (from `from` on) that fails its checks. */
  function FirstBadMessage(items: seq<JSValue>, from: nat): (r: Option<ValidationError>)
    requires from <= |items|
    ensures r.None? <==> forall j :: from <= j < |items| ==> CheckMessage(items[j]).None?
    ensures r.Some? ==> (r.value.BadMessage? && from <= r.value.index < |items|
      && CheckMessage(items[r.value.index]) == Some(r.value.problem)
      && forall j :: from <= j < r.value.index ==> CheckMessage(items[j]).None?)
    decreases |items| - from
  {
    if from == |items| then None
    else match CheckMessage(items[from])
      case Some(p) => Some(BadMessage(from, p))
      case None => FirstBadMessage(items, from + 1)
  }

  /** `validateMessages`: `None` means it returns normally. */
  function ValidateMessages(messages: JSValue): Option<ValidationError>
  {
    if !Truthy(messages) || !messages.JArr? then Some(MessagesNotArray)
    else if |messages.items| == 0 then Some(MessagesEmpty)
    else FirstBadMessage(messages.items, 0)
  }

  /** `validateMessages` passes exactly on a non-empty array of valid messages. */
  lemma ValidateMessagesIff(messages: JSValue)
    ensures ValidateMessages(messages).None? <==>
      messages.JArr? && |messages.items| > 0
      && forall j :: 0 <= j < |messages.items| ==> ValidMessage(messages.items[j])
  {
    if messages.JArr? && |messages.items| > 0 {
      forall j | 0 <= j < |messages.items|
        ensures CheckMessage(messages.items[j]).None? <==> ValidMessage(messages.items[j])
      {
        CheckMessageIffValid(messages.items[j]);
      }
    }
  }

  /** A failing message is reported by its index, the first failing one. */
  lemma ValidateMessagesReportsFirst(messages: JSValue, k: nat, p: MessageProblem)
    requires messages.JArr? && k < |messages.items|
    requires forall j :: 0 <= j < k ==> ValidMessage(messages.items[j])
    requires CheckMessage(messages.items[k]) == Some(p)
    ensures ValidateMessages(messages) == Some(BadMessage(k, p))
  {
    var items := messages.items;
    forall j | 0 <= j < k
      ensures CheckMessage(items[j]).None?
    {
      CheckMessageIffValid(items[j]);
    }
  }

  /**
   * Falsy content (an empty string included) or a missing role fails the
   * role-and-content check before the role and type checks are reached.
   */
  lemma FalsyFieldFailsPresenceFirst(fields: map<string, JSValue>)
    requires ("content" in fields ==> !Truthy(fields["content"]))
          || ("role" !in fields)
    ensures CheckMessage(JObj(fields)) == Some(MissingRoleOrContent)
  {
  }

  /** With present, truthy string content, the role decides: exactly the four names pass. */
  lemma AllowedRolesExact(role: string, content: string)
    requires content != ""
    ensures CheckMessage(JObj(map["role" := JStr(role), "content" := JStr(content)])).None?
      <==> role in {"system", "user", "assistant", "function"}
  {
    var m := JObj(map["role" := JStr(role), "content" := JStr(content)]);
    if role == "" {
      assert CheckMessage(m) == Some(MissingRoleOrContent);
    }
  }

  /** `validateModel`: a falsy model or one of the four names passes. */
  function ValidateModel(model: JSValue): (r: Option<ValidationError>)
    ensures r.None? <==> (!Truthy(model) || IsOneOf(model, AllowedModels))
    ensures r.Some? ==> r == Some(UnsupportedModel(model))
  {
    if Truthy(model) && !IsOneOf(model, AllowedModels) then Some(UnsupportedModel(model)) else None
  }

  lemma ValidateModelNames(name: string)
    ensures ValidateModel(JStr(name)).None? <==>
      name in {"", "gpt-4o", "gpt-4o-mini", "gpt-4", "gpt-3.5-turbo"}
  {
  }

  /**
   * `includes` compares with `===`, so a truthy model that is not a string
   * (a non-zero number, `true`, an array, an object) is always rejected,
   * and a falsy one of any type is accepted.
   */
  lemma ValidateModelByType(model: JSValue)
    ensures Truthy(model) && !model.JStr? ==> ValidateModel(model) == Some(UnsupportedModel(model))
    ensures !Truthy(model) ==> ValidateModel(model).None?
  {
  }

  // ---------------------------------------------------------------------
  // The route handlers' decisions
  // ---------------------------------------------------------------------

  /** What is sent to the completion service. */
  datatype ChatParams = ChatParams(
    model: JSValue, messages: seq<JSValue>, temperature: JSValue, stream: bool,
    tools: Option<seq<JSValue>>)

  /** The error a handler catches. `status` is `error.status`; `errType` is `error.type`. */
  datatype CaughtError = CaughtError(status: JSValue, errType: JSValue)

  /** A plain `Error` carries neither a status nor a type. */
  const PlainError := CaughtError(JUndefined, JUndefined)

  datatype Decision =
    | Proceed(params: ChatParams)
    | BadRequest(message: string)       // a 400 "Validation Error" response
    | Thrown(error: CaughtError)        // caught and mapped by ErrorStatus

  /** `error.status || (error.type === 'invalid_request_error' ? 400 : 500)`. */
  function ErrorStatus(e: CaughtError): (code: JSValue)
    ensures Truthy(e.status) ==> code == e.status
    ensures !Truthy(e.status) && e.errType == JStr("invalid_request_error") ==> code == JNum(400.0)
    ensures !Truthy(e.status) && e.errType != JStr("invalid_request_error") ==> code == JNum(500.0)
  {
    if Truthy(e.status) then e.status
    else if e.errType == JStr("invalid_request_error") then JNum(400.0)
    else JNum(500.0)
  }

  /** `typeof t !== 'number' || t < 0 || t > 2` rejects; NaN is a number and passes. */
  predicate TemperatureRejected(t: JSValue) {
    !(TypeOf(t) == "number") || (t.JNum? && (t.n < 0.0 || t.n > 2.0))
  }

  /** The decision of `POST /api/chat/completions` for a request body. */
  function Completions(body: map<string, JSValue>): (d: Decision)
    ensures d.Proceed? ==> (FieldOr(body, "messages", JUndefined).JArr?
      && d.params.messages == FieldOr(body, "messages", JUndefined).items)
  {
    var messages := FieldOr(body, "messages", JUndefined);
    var model := FieldOr(body, "model", JStr(DefaultModel));
    var temperature := FieldOr(body, "temperature", JNum(DefaultTemperature));
    var stream := FieldOr(body, "stream", JBool(true));
    var tools := FieldOr(body, "tools", JUndefined);
    if ValidateMessages(messages).Some? || ValidateModel(model).Some? then Thrown(PlainError)
    else if TemperatureRejected(temperature) then BadRequest("Temperature must be a number between 0 and 2")
    else if !stream.JBool? then BadRequest("Stream must be a boolean")
    else if Truthy(tools) && !tools.JArr? then BadRequest("Tools must be an array")
    else Proceed(ChatParams(model, messages.items, temperature, stream.b,
                            if tools.JArr? then Some(tools.items) else None))
  }

  /** The decision of `POST /api/chat/completions/non-stream`. */
  function NonStream(body: map<string, JSValue>): (d: Decision)
    ensures d.Proceed? ==> !d.params.stream
  {
    var messages := FieldOr(body, "messages", JUndefined);
    var model := FieldOr(body, "model", JStr(DefaultModel));
    var temperature := FieldOr(body, "temperature", JNum(DefaultTemperature));
    var tools := FieldOr(body, "tools", JUndefined);
    if ValidateMessages(messages).Some? || ValidateModel(model).Some? then Thrown(PlainError)
    else if TemperatureRejected(temperature) then BadRequest("Temperature must be a number between 0 and 2")
    else if Truthy(tools) && !tools.JArr? then BadRequest("Tools must be an array")
    else Proceed(ChatParams(model, messages.items, temperature, false,
                            if tools.JArr? then Some(tools.items) else None))
  }

  /**
   * A failure of either validator is a plain Error: it reaches the catch
   * block and becomes status 500, not 400, and takes precedence over the
   * parameter checks.
   */
  lemma ValidatorFailureIs500(body: map<string, JSValue>)
    requires ValidateMessages(FieldOr(body, "messages", JUndefined)).Some?
          || ValidateModel(FieldOr(body, "model", JStr(DefaultModel))).Some?
    ensures Completions(body) == Thrown(PlainError) && NonStream(body) == Thrown(PlainError)
    ensures ErrorStatus(PlainError) == JNum(500.0)
  {
  }

  /** Once messages and model pass, the completions route answers 400 exactly on a bad parameter. */
  lemma CompletionsBadRequestIff(body: map<string, JSValue>)
    requires ValidateMessages(FieldOr(body, "messages", JUndefined)).None?
    requires ValidateModel(FieldOr(body, "model", JStr(DefaultModel))).None?
    ensures Completions(body).BadRequest? <==>
      TemperatureRejected(FieldOr(body, "temperature", JNum(DefaultTemperature)))
      || !FieldOr(body, "stream", JBool(true)).JBool?
      || (Truthy(FieldOr(body, "tools", JUndefined)) && !FieldOr(body, "tools", JUndefined).JArr?)
    ensures !Completions(body).Thrown?
  {
  }

  /** Absent fields take the documented defaults: gpt-4o-mini, 0.2, streaming, no tools. */
  lemma CompletionsDefaults(messages: seq<JSValue>)
    requires ValidateMessages(JArr(messages)).None?
    ensures Completions(map["messages" := JArr(messages)]) ==
      Proceed(ChatParams(JStr("gpt-4o-mini"), messages, JNum(0.2), true, None))
    ensures NonStream(map["messages" := JArr(messages)]) ==
      Proceed(ChatParams(JStr("gpt-4o-mini"), messages, JNum(0.2), false, None))
  {
    var body := map["messages" := JArr(messages)];
    assert "model" !in body && "temperature" !in body && "stream" !in body && "tools" !in body;
  }

  /** `/non-stream` ignores a `stream` field and forwards tools only when they form an array. */
  lemma NonStreamForcesNoStream(body: map<string, JSValue>)
    requires NonStream(body).Proceed?
    ensures !NonStream(body).params.stream
    ensures NonStream(body).params.tools.Some? <==> FieldOr(body, "tools", JUndefined).JArr?
  {
  }

  /** After the stream has started (headers sent) a caught error only ends the response. */
  function ErrorResponse(headersSent: bool, e: CaughtError): (r: Option<JSValue>)
    ensures headersSent <==> r.None?
    ensures r.Some? ==> r.value == ErrorStatus(e)
  {
    if headersSent then None else Some(ErrorStatus(e))
  }
}
