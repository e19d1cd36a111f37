/**
 * Request validation of the chat endpoint (validateBody in
 * src/app/api/chat/route.ts). A raw body either becomes a ChatRequestBody or is
 * rejected with one of two fixed 400 responses. JSON.parse itself is not
 * modelled: its outcome is the RawBody handed in. The zod schema
 * `{params: {messages: [{role: string, text: string}]}}` is modelled by the
 * Parse* functions, which, like zod, strip unknown keys and collect one
 * "invalid_type" issue per offending location, in schema order.
 */
module Validation {
  import opened Wrappers

  /** A JSON value as JSON.parse yields it; an object keeps the last value of a repeated key. */
  datatype Json =
    | JNull
    | JBool(b: bool)
    | JNumber(n: real)
    | JString(s: string)
    | JArray(items: seq<Json>)
    | JObject(fields: map<string, Json>)

  /** The request body: text JSON.parse rejects, or the value it produces. */
  datatype RawBody = Malformed | Parsed(json: Json)

  datatype Message = Message(role: string, text: string)

  /** `{params: {messages}}`; the single-field `params` wrapper is flattened. */
  datatype ChatRequestBody = ChatRequestBody(messages: seq<Message>)

  /** The type names zod reports as "expected" and "received". */
  datatype Kind = StringKind | NumberKind | BooleanKind | NullKind | ArrayKind | ObjectKind | UndefinedKind

  datatype Segment = Key(name: string) | Index(i: nat)

  /** A zod issue of code "invalid_type". */
  datatype Issue = InvalidType(path: seq<Segment>, expected: Kind, received: Kind)

  datatype Checked<T> = Ok(value: T) | Issues(list: seq<Issue>)

  /** The HTTP response validateBody throws, with the Content-Type it ends up carrying. */
  datatype Response = Response(status: nat, body: Json, contentType: Option<string>)

  function KindOf(v: Option<Json>): Kind
  {
    match v
    case None => UndefinedKind
    case Some(j) =>
      match j
      case JNull => NullKind
      case JBool(_) => BooleanKind
      case JNumber(_) => NumberKind
      case JString(_) => StringKind
      case JArray(_) => ArrayKind
      case JObject(_) => ObjectKind
  }

  /** Property access `v[key]`; None stands for `undefined`. */
  function Member(v: Json, key: string): Option<Json>
  {
    if v.JObject? && key in v.fields then Some(v.fields[key]) else None
  }

  function IssuesOf<T>(c: Checked<T>): seq<Issue>
  {
    if c.Issues? then c.list else []
  }

  /** z.string() */
  function ParseString(v: Option<Json>, path: seq<Segment>): (r: Checked<string>)
    ensures r.Ok? <==> KindOf(v) == StringKind
    ensures r.Issues? ==> r.list == [InvalidType(path, StringKind, KindOf(v))]
  {
    if v.Some? && v.value.JString? then Ok(v.value.s)
    else Issues([InvalidType(path, StringKind, KindOf(v))])
  }

  /** MessageSchema: z.object({role: z.string(), text: z.string()}) */
  function ParseMessage(v: Json, path: seq<Segment>): (r: Checked<Message>)
    ensures r.Ok? <==> IsMessageJson(v)
    ensures r.Ok? ==> r.value == Message(v.fields["role"].s, v.fields["text"].s)
    ensures r.Issues? ==> r.list != []
  {
    if !v.JObject? then Issues([InvalidType(path, ObjectKind, KindOf(Some(v)))])
    else
      var role := ParseString(Member(v, "role"), path + [Key("role")]);
      var text := ParseString(Member(v, "text"), path + [Key("text")]);
      if role.Ok? && text.Ok? then Ok(Message(role.value, text.value))
      else Issues(IssuesOf(role) + IssuesOf(text))
  }

  /** The elements of z.array(MessageSchema); every element is checked and all issues are kept. */
  function ParseList(items: seq<Json>, path: seq<Segment>): (r: Checked<seq<Message>>)
    ensures r.Ok? ==> |r.value| == |items|
    ensures r.Issues? ==> r.list != []
    decreases |items|
  {
    if items == [] then Ok([])
    else
      var n := |items| - 1;
      var init := ParseList(items[..n], path);
      var last := ParseMessage(items[n], path + [Index(n)]);
      if init.Ok? && last.Ok? then Ok(init.value + [last.value])
      else Issues(IssuesOf(init) + IssuesOf(last))
  }

  /** z.array(MessageSchema) */
  function ParseMessages(v: Option<Json>, path: seq<Segment>): (r: Checked<seq<Message>>)
    ensures r.Issues? ==> r.list != []
  {
    if v.Some? && v.value.JArray? then ParseList(v.value.items, path)
    else Issues([InvalidType(path, ArrayKind, KindOf(v))])
  }

  /** The `params` object: z.object({messages: ...}) */
  function ParseParams(v: Option<Json>, path: seq<Segment>): (r: Checked<seq<Message>>)
    ensures r.Issues? ==> r.list != []
  {
    if v.Some? && v.value.JObject? then ParseMessages(Member(v.value, "messages"), path + [Key("messages")])
    else Issues([InvalidType(path, ObjectKind, KindOf(v))])
  }

  /** ChatRequestBodySchema.safeParse */
  function SafeParse(j: Json): (r: Checked<ChatRequestBody>)
    ensures r.Issues? ==> r.list != []
  {
    if !j.JObject? then Issues([InvalidType([], ObjectKind, KindOf(Some(j)))])
    else
      match ParseParams(Member(j, "params"), [Key("params")])
      case Ok(ms) => Ok(ChatRequestBody(ms))
      case Issues(list) => Issues(list)
  }

  function KindName(k: Kind): string
  {
    match k
    case StringKind => "string"
    case NumberKind => "number"
    case BooleanKind => "boolean"
    case NullKind => "null"
    case ArrayKind => "array"
    case ObjectKind => "object"
    case UndefinedKind => "undefined"
  }

  function SegmentJson(s: Segment): Json
  {
    match s
    case Key(name) => JString(name)
    case Index(i) => JNumber(i as real)
  }

  /** A zod issue as JSON.stringify writes it, with zod's default message: "Required" exactly
      when the value is missing, and a path with one entry per segment. */
  function IssueJson(issue: Issue): (r: Json)
    ensures r.JObject? && "message" in r.fields && "path" in r.fields && r.fields["path"].JArray?
    ensures r.fields["message"] == JString("Required") <==> issue.received == UndefinedKind
    ensures |r.fields["path"].items| == |issue.path|
  {
    JObject(map[
      "code" := JString("invalid_type"),
      "expected" := JString(KindName(issue.expected)),
      "received" := JString(KindName(issue.received)),
      "path" := JArray(seq(|issue.path|, i requires 0 <= i < |issue.path| => SegmentJson(issue.path[i]))),
      "message" := JString(
        if issue.received == UndefinedKind then "Required"
        else "Expected " + KindName(issue.expected) + ", received " + KindName(issue.received))
    ])
  }

  /** The type the Fetch standard gives a Response built from a string body whose headers
      declare none. */
  const TEXT_PLAIN: string := "text/plain;charset=UTF-8"

  /** The response for a body that is not JSON: a 400 carrying only an `error` field; the code
      declares no Content-Type, so the string body's default applies. */
  function InvalidJsonResponse(): (r: Response)
    ensures r.status == 400 && r.body.JObject? && r.body.fields.Keys == {"error"}
    ensures r.contentType == Some(TEXT_PLAIN)
  {
    Response(400, JObject(map["error" := JString("invalid json body")]), Some(TEXT_PLAIN))
  }

  /** The response for a body of the wrong shape: a 400 declared as JSON whose `details` hold
      the issues one for one, in order; it can never be taken for the invalid-JSON response. */
  function InvalidShapeResponse(details: seq<Issue>): (r: Response)
    ensures r.status == 400 && r.contentType == Some("application/json")
    ensures r.body.JObject? && "details" in r.body.fields && r.body.fields["details"].JArray?
    ensures |r.body.fields["details"].items| == |details|
    ensures forall i :: 0 <= i < |details| ==> r.body.fields["details"].items[i] == IssueJson(details[i])
    ensures r != InvalidJsonResponse()
  {
    Response(
      400,
      JObject(map[
        "error" := JString("invalid request body"),
        "details" := JArray(seq(|details|, i requires 0 <= i < |details| => IssueJson(details[i])))
      ]),
      Some("application/json"))
  }

  /** validateBody: the parsed body, or the Response it throws. */
  function ValidateBody(raw: RawBody): (r: Result<ChatRequestBody, Response>)
    ensures r.Failure? ==> r.error.status == 400
    ensures raw.Malformed? <==> r == Failure(InvalidJsonResponse())
  {
    match raw
    case Malformed => Failure(InvalidJsonResponse())
    case Parsed(j) =>
      match SafeParse(j)
      case Ok(body) => Success(body)
      case Issues(list) => Failure(InvalidShapeResponse(list))
  }

  // ---------------------------------------------------------------------------
  // The schema stated independently of the parser, and the parser's properties.

  ghost predicate IsMessageJson(v: Json)
  {
    && v.JObject?
    && "role" in v.fields && v.fields["role"].JString?
    && "text" in v.fields && v.fields["text"].JString?
  }

  ghost predicate IsMessageList(items: seq<Json>)
  {
    forall i :: 0 <= i < |items| ==> IsMessageJson(items[i])
  }

  /** `{params: {messages: [{role: string, text: string}, ...]}}`, extra keys allowed anywhere. */
  ghost predicate WellShaped(j: Json)
  {
    && j.JObject?
    && "params" in j.fields
    && j.fields["params"].JObject?
    && "messages" in j.fields["params"].fields
    && j.fields["params"].fields["messages"].JArray?
    && IsMessageList(j.fields["params"].fields["messages"].items)
  }

  function MessagesOf(j: Json): seq<Json>
  {
    if j.JObject? && "params" in j.fields && j.fields["params"].JObject?
       && "messages" in j.fields["params"].fields && j.fields["params"].fields["messages"].JArray?
    then j.fields["params"].fields["messages"].items
    else []
  }

  /** The request as a client sends it. */
  function ToJson(body: ChatRequestBody): Json
  {
    var ms := body.messages;
    JObject(map["params" := JObject(map["messages" := JArray(
      seq(|ms|, i requires 0 <= i < |ms| => JObject(map["role" := JString(ms[i].role), "text" := JString(ms[i].text)])))])])
  }

  /** The element parser accepts exactly the message objects and keeps role and text of each, in order. */
  lemma {:induction false} ParseListExact(items: seq<Json>, path: seq<Segment>)
    ensures ParseList(items, path).Ok? <==> IsMessageList(items)
    ensures ParseList(items, path).Ok? ==>
      forall i :: 0 <= i < |items| ==>
        ParseList(items, path).value[i] == Message(items[i].fields["role"].s, items[i].fields["text"].s)
    decreases |items|
  {
    if items != [] {
      var n := |items| - 1;
      ParseListExact(items[..n], path);
      var init := ParseList(items[..n], path);
      var last := ParseMessage(items[n], path + [Index(n)]);
      assert last.Ok? <==> IsMessageJson(items[n]);
      if IsMessageList(items) {
        assert IsMessageList(items[..n]) by {
          forall i | 0 <= i < n ensures IsMessageJson(items[..n][i]) {
            assert items[..n][i] == items[i];
          }
        }
      } else {
        var k :| 0 <= k < |items| && !IsMessageJson(items[k]);
        if k < n {
          assert items[..n][k] == items[k];
        }
      }
    }
  }

  /** validateBody accepts a parsed body exactly when it has the schema's shape, and then
      returns every message, in order, with role and text unchanged. */
  lemma ValidateAcceptsExactlyWellShaped(j: Json)
    ensures ValidateBody(Parsed(j)).Success? <==> WellShaped(j)
    ensures ValidateBody(Parsed(j)).Success? ==>
      var ms := ValidateBody(Parsed(j)).value.messages;
      var items := MessagesOf(j);
      && |ms| == |items|
      && forall i :: 0 <= i < |ms| ==> ms[i] == Message(items[i].fields["role"].s, items[i].fields["text"].s)
  {
    if j.JObject? && "params" in j.fields && j.fields["params"].JObject?
       && "messages" in j.fields["params"].fields && j.fields["params"].fields["messages"].JArray? {
      var path := [Key("params")] + [Key("messages")];
      ParseListExact(MessagesOf(j), path);
      var p := j.fields["params"];
      assert ParseMessages(Member(p, "messages"), path) == ParseList(MessagesOf(j), path);
      assert ParseParams(Member(j, "params"), [Key("params")]) == ParseList(MessagesOf(j), path);
    }
  }

  /** A parsed body of the wrong shape is rejected with the "invalid request body" 400 response,
      declared as JSON and carrying a non-empty `details` array. */
  lemma ShapeRejection(j: Json)
    requires !WellShaped(j)
    ensures var r := ValidateBody(Parsed(j));
      && r.Failure?
      && r.error.status == 400
      && r.error.contentType == Some("application/json")
      && r.error.body.JObject?
      && r.error.body.fields["error"] == JString("invalid request body")
      && r.error.body.fields["details"].JArray?
      && |r.error.body.fields["details"].items| > 0
  {
    ValidateAcceptsExactlyWellShaped(j);
  }

  /** A body JSON.parse rejects gets the bare "invalid json body" 400 response, without details
      and typed as plain text, since the code declares no Content-Type. */
  lemma MalformedRejection()
    ensures var r := ValidateBody(Malformed);
      && r.Failure?
      && r.error.status == 400
      && r.error.body == JObject(map["error" := JString("invalid json body")])
      && "details" !in r.error.body.fields
      && r.error.contentType == Some("text/plain;charset=UTF-8")
  {
  }

  /** What a client sends validates back to the same request (so validation is also idempotent
      on its own output). */
  lemma ValidateToJson(body: ChatRequestBody)
    ensures ValidateBody(Parsed(ToJson(body))) == Success(body)
  {
    var j := ToJson(body);
    var items := MessagesOf(j);
    assert IsMessageList(items) by {
      forall i | 0 <= i < |items| ensures IsMessageJson(items[i]) {
      }
    }
    ValidateAcceptsExactlyWellShaped(j);
    var ms := ValidateBody(Parsed(j)).value.messages;
    assert ms == body.messages;
  }
}
