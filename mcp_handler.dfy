/**
  `MCPHandler` (src/tidewave/mcp_handler.py): the JSON-RPC 2.0 endpoint of the
  Model Context Protocol. It keeps a registry of tools built from host
  functions, validates incoming messages, dispatches `ping`, `initialize`,
  `tools/list` and `tools/call`, and writes the reply as JSON over HTTP.

  `json.loads` and `json.dumps` are parameters: `loads` yields None when the
  body is not valid UTF-8 JSON, `dumps` is the text `json.dumps` produces.
*/
module McpHandler {
  import opened Wrappers
  import opened JsonValue
  import opened ToolBase
  import Text
  import Http

  const ProtocolVersion: string := "2025-03-26"
  const ServerVersion: string := "1.0.0"
  const ServerName: string := "Python MCP Server"

  // ---------------------------------------------------------------------
  // The tool registry

  /** `self.tools`: a dict from tool name to tool, in insertion order. */
  type Registry = seq<Tool>

  predicate UniqueNames(reg: Registry)
  {
    forall i, j :: 0 <= i < j < |reg| ==> reg[i].name != reg[j].name
  }

  /** The position of the entry with the given name: the first one. */
  function FindTool(reg: Registry, name: string): (r: Option<nat>)
    ensures r.Some? ==> (r.value < |reg| && reg[r.value].name == name
      && forall k :: 0 <= k < r.value ==> reg[k].name != name)
    ensures r.None? ==> forall k :: 0 <= k < |reg| ==> reg[k].name != name
  {
    if |reg| == 0 then None
    else if reg[0].name == name then Some(0)
    else match FindTool(reg[1..], name)
      case None => None
      case Some(k) => Some(k + 1)
  }

  /** `self.tools.get(name)`. */
  function Lookup(reg: Registry, name: string): Option<Tool>
  {
    match FindTool(reg, name)
    case None => None
    case Some(k) => Some(reg[k])
  }

  /** `self.tools[tool.name] = tool`: an existing key keeps its position and
      takes the new value; a new key goes at the end. */
  function Register(reg: Registry, t: Tool): Registry
  {
    match FindTool(reg, t.name)
    case Some(k) => reg[k := t]
    case None => reg + [t]
  }

  /** The lookup depends on the names alone. */
  lemma FindToolByNames(a: Registry, b: Registry, n: string)
    requires |a| == |b| && forall i :: 0 <= i < |a| ==> a[i].name == b[i].name
    ensures FindTool(a, n) == FindTool(b, n)
  {
    var x, y := FindTool(a, n), FindTool(b, n);
    if x.Some? {
      assert b[x.value].name == n;
    }
    if y.Some? {
      assert a[y.value].name == n;
    }
  }

  /** Appending an entry under another name does not change a lookup. */
  lemma FindToolAppend(reg: Registry, t: Tool, n: string)
    ensures FindTool(reg + [t], n) == if n != t.name || FindTool(reg, n).Some? then FindTool(reg, n) else Some(|reg|)
  {
    var x, y := FindTool(reg + [t], n), FindTool(reg, n);
    if x.Some? && x.value < |reg| {
      assert reg[x.value].name == n;
    }
    if y.Some? {
      assert (reg + [t])[y.value].name == n;
    }
    assert (reg + [t])[|reg|] == t;
  }

  /** Assignment into the dict keeps keys unique, makes the new tool the one
      found under its name, and leaves every other name's entry alone. */
  lemma RegisterSpec(reg: Registry, t: Tool)
    requires UniqueNames(reg)
    ensures UniqueNames(Register(reg, t))
    ensures Lookup(Register(reg, t), t.name) == Some(t)
    ensures forall n :: n != t.name ==> Lookup(Register(reg, t), n) == Lookup(reg, n)
    ensures |Register(reg, t)| == |reg| + (if Lookup(reg, t.name).Some? then 0 else 1)
  {
    var r := Register(reg, t);
    match FindTool(reg, t.name)
    case Some(k) =>
      assert forall i :: 0 <= i < |reg| ==> r[i].name == reg[i].name;
      forall n
        ensures FindTool(r, n) == FindTool(reg, n)
      {
        FindToolByNames(r, reg, n);
      }
    case None =>
      forall n
        ensures FindTool(r, n) == if n != t.name then FindTool(reg, n) else Some(|reg|)
      {
        FindToolAppend(reg, t, n);
      }
      forall n | n != t.name
        ensures Lookup(r, n) == Lookup(reg, n)
      {
        if FindTool(reg, n).Some? {
          assert r[FindTool(reg, n).value] == reg[FindTool(reg, n).value];
        }
      }
  }

  /** `_init_tools` as a value, after the first `n` functions: each in turn
      becomes a tool and is stored under its name; the first function that
      cannot become a tool stops the whole construction. */
  function Built(fs: seq<ToolFunction>, n: nat): Result<Registry, string>
    requires n <= |fs|
  {
    if n == 0 then Success([])
    else match Built(fs, n - 1)
      case Failure(e) => Failure(e)
      case Success(reg) =>
        match NewTool(fs[n - 1])
        case Failure(e) => Failure(e)
        case Success(t) => Success(Register(reg, t))
  }

  /** The registry `_init_tools` builds from all the functions. */
  function BuildRegistry(fs: seq<ToolFunction>): Result<Registry, string>
  {
    Built(fs, |fs|)
  }

  /** Every entry of a registry is the tool its own function builds. */
  ghost predicate WellBuilt(reg: Registry)
  {
    forall k :: 0 <= k < |reg| ==> NewTool(reg[k].func) == Success(reg[k])
  }

  /** The registry is built exactly when every function has type hints on all
      its parameters. */
  lemma {:induction false} BuiltSucceeds(fs: seq<ToolFunction>, n: nat)
    requires n <= |fs|
    ensures Built(fs, n).Success? <==> forall k :: 0 <= k < n ==> NewTool(fs[k]).Success?
  {
    if n > 0 {
      BuiltSucceeds(fs, n - 1);
    }
  }

  /** Otherwise the first function that cannot become a tool gives the error. */
  lemma {:induction false} BuiltFirstError(fs: seq<ToolFunction>, n: nat)
    requires n <= |fs| && Built(fs, n).Failure?
    ensures exists k ::
      && 0 <= k < n && NewTool(fs[k]) == Failure(Built(fs, n).error)
      && forall j :: 0 <= j < k ==> NewTool(fs[j]).Success?
  {
    if Built(fs, n - 1).Failure? {
      BuiltFirstError(fs, n - 1);
      assert Built(fs, n) == Built(fs, n - 1);
    } else {
      BuiltSucceeds(fs, n - 1);
      var k := n - 1;
      assert NewTool(fs[k]) == Failure(Built(fs, n).error);
      assert forall j :: 0 <= j < k ==> NewTool(fs[j]).Success?;
    }
  }

  /** A built registry has unique names and holds only tools built from
      their own functions. */
  lemma {:induction false} BuiltWellFormed(fs: seq<ToolFunction>, n: nat)
    requires n <= |fs| && Built(fs, n).Success?
    ensures UniqueNames(Built(fs, n).value) && WellBuilt(Built(fs, n).value)
  {
    if n > 0 {
      BuiltWellFormed(fs, n - 1);
      var prev := Built(fs, n - 1).value;
      var t := NewTool(fs[n - 1]).value;
      var reg := Built(fs, n).value;
      assert reg == Register(prev, t);
      RegisterSpec(prev, t);
      forall k | 0 <= k < |reg|
        ensures NewTool(reg[k].func) == Success(reg[k])
      {
        if k >= |prev| || reg[k] != prev[k] {
          assert reg[k] == t;
        }
      }
    }
  }

  /** One of the first `n` functions has the name `name`. */
  predicate Names(fs: seq<ToolFunction>, n: nat, name: string)
    requires n <= |fs|
  {
    exists k :: 0 <= k < n && fs[k].name == name
  }

  /** A name is registered exactly when some function has it. */
  lemma {:induction false} BuiltNames(fs: seq<ToolFunction>, n: nat)
    requires n <= |fs| && Built(fs, n).Success?
    ensures forall name :: Lookup(Built(fs, n).value, name).Some? <==> Names(fs, n, name)
  {
    if n > 0 {
      BuiltNames(fs, n - 1);
      BuiltWellFormed(fs, n - 1);
      var prev := Built(fs, n - 1).value;
      var t := NewTool(fs[n - 1]).value;
      assert Built(fs, n).value == Register(prev, t);
      RegisterSpec(prev, t);
      forall name
        ensures Lookup(Register(prev, t), name).Some? <==> Names(fs, n, name)
      {
        if Names(fs, n, name) && fs[n - 1].name != name {
          var k :| 0 <= k < n && fs[k].name == name;
          assert Names(fs, n - 1, name);
        }
      }
    }
  }

  /** Under each name sits the tool of the LAST function with that name. */
  lemma {:induction false} BuiltLastWins(fs: seq<ToolFunction>, n: nat, k: nat)
    requires n <= |fs| && Built(fs, n).Success?
    requires k < n && forall j :: k < j < n ==> fs[j].name != fs[k].name
    ensures var reg := Built(fs, n).value;
      Lookup(reg, fs[k].name).Some? && NewTool(fs[k]) == Success(Lookup(reg, fs[k].name).value)
  {
    BuiltWellFormed(fs, n - 1);
    var prev := Built(fs, n - 1).value;
    var t := NewTool(fs[n - 1]).value;
    RegisterSpec(prev, t);
    if k < n - 1 {
      BuiltLastWins(fs, n - 1, k);
    }
  }

  /** The handler object: its registry is the only state it keeps. */
  class Handler {
    var tools: Registry

    /** `MCPHandler.__init__` is split in two: this constructor sets up the
        empty registry, and the caller then runs `InitTools` on the same
        functions, which is the rest of `__init__` (its call to
        `_init_tools`), so that a function without type hints surfaces as
        the returned error. */
    constructor ()
      ensures tools == []
    {
      tools := [];
    }

    /** `_init_tools`: builds each tool in turn and stores it under its name.
        On success the registry is the one `BuildRegistry` describes; the first
        function without complete type hints raises, reported as the error. */
    method InitTools(fs: seq<ToolFunction>) returns (error: Option<string>)
      modifies this
      ensures BuildRegistry(fs).Success? ==> error.None? && tools == BuildRegistry(fs).value
      ensures BuildRegistry(fs).Failure? ==> error == Some(BuildRegistry(fs).error)
    {
      tools := [];
      error := None;
      for i := 0 to |fs|
        invariant Built(fs, i) == Success(tools)
      {
        var built := Construct(fs[i]);
        match built {
          case Failure(e) =>
            error := Some(e);
            BuiltFailureSticks(fs, i + 1);
            return;
          case Success(t) =>
            var found := FindTool(tools, t.name);
            if found.Some? {
              tools := tools[found.value := t];
            } else {
              tools := tools + [t];
            }
        }
      }
    }
  }

  /** Once a prefix of the functions fails, so does the whole list. */
  lemma {:induction false} BuiltFailureSticks(fs: seq<ToolFunction>, n: nat)
    requires n <= |fs| && Built(fs, n).Failure?
    ensures BuildRegistry(fs) == Built(fs, n)
    decreases |fs| - n
  {
    if n < |fs| {
      assert Built(fs, n + 1) == Built(fs, n);
      BuiltFailureSticks(fs, n + 1);
    }
  }

  // ---------------------------------------------------------------------
  // Message validation

  /** `_validate_jsonrpc_message`: None for a request, a notification or a
      response; otherwise the reason the message is malformed. A valid message
      is an object with a "method" or a "result". */
  function ValidateMessage(m: Json): (reason: Option<string>)
    ensures reason.None? ==> m.JObject? && ("method" in m.fields || "result" in m.fields)
    ensures reason.Some? ==>
      reason.value in {"Message must be a JSON object", "Invalid JSON-RPC version", "Invalid JSON-RPC message structure"}
  {
    if !m.JObject? then Some("Message must be a JSON object")
    else if GetOrNull(m.fields, "jsonrpc") != JStr("2.0") then Some("Invalid JSON-RPC version")
    else
      var hasId, hasMethod, hasResult := "id" in m.fields, "method" in m.fields, "result" in m.fields;
      if hasMethod && hasId then None
      else if hasMethod && !hasId then None
      else if hasId && hasResult then None
      else Some("Invalid JSON-RPC message structure")
  }

  /** A message is accepted exactly when it is an object whose "jsonrpc" is
      the string "2.0" and that has a "method", or both an "id" and a
      "result"; each rejection carries its own reason. */
  lemma ValidateMessageSpec(m: Json)
    ensures ValidateMessage(m).None? <==>
      m.JObject? && "jsonrpc" in m.fields && m.fields["jsonrpc"] == JStr("2.0")
      && ("method" in m.fields || ("id" in m.fields && "result" in m.fields))
    ensures !m.JObject? ==> ValidateMessage(m) == Some("Message must be a JSON object")
    ensures m.JObject? && GetOrNull(m.fields, "jsonrpc") != JStr("2.0") ==>
      ValidateMessage(m) == Some("Invalid JSON-RPC version")
  {
  }

  // ---------------------------------------------------------------------
  // Dispatch

  /** What `_handle_message` does: no response for a notification, a reply
      dict, or an exception that escapes to `handle_request`. */
  datatype Handled = NoResponse | Reply(response: Json) | Raises

  /** `_create_error_response` (and the body `_send_jsonrpc_error` sends). */
  function ErrorResponse(id: Json, code: int, message: string): Json
  {
    JObject(map[
      "jsonrpc" := JStr("2.0"),
      "id" := id,
      "error" := JObject(map["code" := JInt(code), "message" := JStr(message)])])
  }

  /** A successful reply: `{"jsonrpc": "2.0", "id": id, "result": result}`. */
  function ResultResponse(id: Json, result: Json): Json
  {
    JObject(map["jsonrpc" := JStr("2.0"), "id" := id, "result" := result])
  }

  /** The two reply shapes: exactly "jsonrpc", "id" and one of "result" and
      "error", with the version "2.0" and the request's id. */
  lemma ResponseShapes(id: Json, result: Json, code: int, message: string)
    ensures ResultResponse(id, result).fields.Keys == {"jsonrpc", "id", "result"}
    ensures ErrorResponse(id, code, message).fields.Keys == {"jsonrpc", "id", "error"}
    ensures ResultResponse(id, result).fields["jsonrpc"] == JStr("2.0") && ResultResponse(id, result).fields["id"] == id
    ensures ErrorResponse(id, code, message).fields["jsonrpc"] == JStr("2.0") && ErrorResponse(id, code, message).fields["id"] == id
  {
  }

  /** `_get_tool_list`: each registered tool's name, stripped description and
      schema, in registry order. */
  function ToolList(reg: Registry): (list: seq<Json>)
    ensures |list| == |reg|
  {
    seq(|reg|, k requires 0 <= k < |reg| =>
      JObject(map[
        "name" := JStr(reg[k].name),
        "description" := JStr(Text.Strip(Description(reg[k].func))),
        "inputSchema" := SchemaJson(reg[k].inputSchema)]))
  }

  /** The listing is exactly each tool's `to_mcp_tool`: stripping the
      description changes nothing. */
  lemma ToolListIsMcpTools(reg: Registry)
    ensures forall k :: 0 <= k < |reg| ==> ToolList(reg)[k] == ToMcpTool(reg[k])
  {
    forall k | 0 <= k < |reg|
      ensures ToolList(reg)[k] == ToMcpTool(reg[k])
    {
      DescriptionStripped(reg[k].func);
    }
  }

  /** `_handle_initialize`. A missing or empty version is refused; a version
      that sorts before the server's is refused; otherwise the server
      describes itself and lists its tools. Comparing a non-string version
      with a string raises, as does `params.get` on params that are not a dict.
      The request is always answered or raises, and the server describes
      itself only to a client whose version string is not below its own. */
  function Initialize(reg: Registry, id: Json, params: Json): (h: Handled)
    ensures !h.NoResponse?
    ensures h.Reply? ==> h.response.JObject?
    ensures params.JObject? && !Truthy(GetOrNull(params.fields, "protocolVersion")) ==>
      h == Reply(ErrorResponse(id, -32602, "Protocol version is required"))
    ensures h.Reply? && "result" in h.response.fields ==>
      params.JObject? && GetOrNull(params.fields, "protocolVersion").JStr?
      && !Text.LexLess(GetOrNull(params.fields, "protocolVersion").s, ProtocolVersion)
  {
    if !params.JObject? then Raises
    else
      var version := GetOrNull(params.fields, "protocolVersion");
      if !Truthy(version) then Reply(ErrorResponse(id, -32602, "Protocol version is required"))
      else if !version.JStr? then Raises
      else if Text.LexLess(version.s, ProtocolVersion) then
        Reply(ErrorResponse(id, -32602, UnsupportedVersion))
      else
        Reply(ResultResponse(id, ServerDescription(reg)))
  }

  const UnsupportedVersion: string := "Unsupported protocol version. Server supports " + ProtocolVersion + " or later"

  /** The result of a successful `initialize`. */
  function ServerDescription(reg: Registry): (d: Json)
    ensures d.JObject? && d.fields.Keys == {"protocolVersion", "capabilities", "serverInfo", "tools"}
    ensures d.fields["protocolVersion"] == JStr(ProtocolVersion) && d.fields["tools"] == JArray(ToolList(reg))
  {
    JObject(map[
      "protocolVersion" := JStr(ProtocolVersion),
      "capabilities" := JObject(map["tools" := JObject(map["listChanged" := JBool(false)])]),
      "serverInfo" := JObject(map["name" := JStr(ServerName), "version" := JStr(ServerVersion)]),
      "tools" := JArray(ToolList(reg))])
  }

  /** The result of a tool call: an error reply becomes a successful JSON-RPC
      response whose content is the error text, flagged `isError`. */
  function CallResult(r: ToolReply): Json
  {
    match r
    case Error(m) =>
      JObject(map[
        "content" := JArray([JObject(map["type" := JStr("text"), "text" := JStr(m)])]),
        "isError" := JBool(true)])
    case Content(_) => ReplyJson(r)
  }

  /** A tool's reply always carries one text item: its error text, flagged
      `isError`, or its result text; never a JSON-RPC "error". */
  lemma CallResultSpec(r: ToolReply)
    ensures CallResult(r).JObject? && "error" !in CallResult(r).fields
    ensures "isError" in CallResult(r).fields <==> r.Error?
    ensures "content" in CallResult(r).fields && CallResult(r).fields["content"] ==
      JArray([JObject(map["type" := JStr("text"), "text" := JStr(if r.Error? then r.message else r.text)])])
  {
    if r.Content? {
      ReplyJsonShape(r);
    }
  }

  /** `_handle_call_tool`. The request is always answered or raises, and a
      JSON-RPC result comes back only for a tool that is registered under
      the given name. */
  function CallTool(reg: Registry, id: Json, params: Json): (h: Handled)
    ensures !h.NoResponse?
    ensures h.Reply? ==> h.response.JObject?
    ensures params.JObject? && !Truthy(GetOrNull(params.fields, "name")) ==>
      h == Reply(ErrorResponse(id, -32602, "Tool name is required"))
    ensures (params.JObject? && Truthy(GetOrNull(params.fields, "name")) && Hashable(GetOrNull(params.fields, "name"))
             && !GetOrNull(params.fields, "name").JStr?) ==>
      h == Reply(ErrorResponse(id, -32601, "Tool '" + PyStr(GetOrNull(params.fields, "name")) + "' not found"))
    ensures h.Reply? && "result" in h.response.fields ==>
      params.JObject? && GetOrNull(params.fields, "name").JStr?
      && Lookup(reg, GetOrNull(params.fields, "name").s).Some?
  {
    if !params.JObject? then Raises
    else
      var name := GetOrNull(params.fields, "name");
      var arguments := Get(params.fields, "arguments", JObject(map[]));
      if !Truthy(name) then Reply(ErrorResponse(id, -32602, "Tool name is required"))
      else if !Hashable(name) then Raises
      else if !name.JStr? || Lookup(reg, name.s).None? then
        Reply(ErrorResponse(id, -32601, "Tool '" + PyStr(name) + "' not found"))
      else
        Reply(ResultResponse(id, CallResult(CallSpec(Lookup(reg, name.s).value, arguments))))
  }

  /** `_handle_message`: routes on the "method" member. Every reply is an
      object; only `initialize` and `tools/call` can raise, and only the two
      notifications go unanswered. */
  function HandleMessage(reg: Registry, m: map<string, Json>): (h: Handled)
    ensures h.Reply? ==> h.response.JObject?
    ensures h.Raises? ==> GetOrNull(m, "method") in {JStr("initialize"), JStr("tools/call")}
    ensures h.NoResponse? ==> GetOrNull(m, "method") in {JStr("notifications/initialized"), JStr("notifications/cancelled")}
  {
    var called := GetOrNull(m, "method");
    var id := GetOrNull(m, "id");
    var params := Get(m, "params", JObject(map[]));
    if called == JStr("notifications/initialized") || called == JStr("notifications/cancelled") then NoResponse
    else if called == JStr("ping") then Reply(ResultResponse(id, JObject(map[])))
    else if called == JStr("initialize") then Initialize(reg, id, params)
    else if called == JStr("tools/list") then Reply(ResultResponse(id, JObject(map["tools" := JArray(ToolList(reg))])))
    else if called == JStr("tools/call") then CallTool(reg, id, params)
    else Reply(JObject(map[
      "jsonrpc" := JStr("2.0"),
      "id" := id,
      "error" := JObject(map[
        "code" := JInt(-32601),
        "message" := JStr("Method not found"),
        "data" := JObject(map["name" := called])])]))
  }

  /** The method table: `ping` gets an empty result, `tools/list` the tool
      list, `initialize` and `tools/call` their handlers' replies with the
      message's id and params (an empty dict when absent), and any other
      method -32601 "Method not found" naming the method. */
  lemma HandleMessageSpec(reg: Registry, m: map<string, Json>)
    ensures var called, id := GetOrNull(m, "method"), GetOrNull(m, "id");
      called == JStr("ping") ==> HandleMessage(reg, m) == Reply(ResultResponse(id, JObject(map[])))
    ensures var called, id := GetOrNull(m, "method"), GetOrNull(m, "id");
      called == JStr("tools/list") ==>
        HandleMessage(reg, m) == Reply(ResultResponse(id, JObject(map["tools" := JArray(ToolList(reg))])))
    ensures var called, id := GetOrNull(m, "method"), GetOrNull(m, "id");
      called == JStr("initialize") ==>
        HandleMessage(reg, m) == Initialize(reg, id, Get(m, "params", JObject(map[])))
    ensures var called, id := GetOrNull(m, "method"), GetOrNull(m, "id");
      called == JStr("tools/call") ==>
        HandleMessage(reg, m) == CallTool(reg, id, Get(m, "params", JObject(map[])))
    ensures var called, id := GetOrNull(m, "method"), GetOrNull(m, "id");
      called !in {JStr("notifications/initialized"), JStr("notifications/cancelled"), JStr("ping"),
                  JStr("initialize"), JStr("tools/list"), JStr("tools/call")} ==>
        HandleMessage(reg, m) == Reply(JObject(map[
          "jsonrpc" := JStr("2.0"),
          "id" := id,
          "error" := JObject(map[
            "code" := JInt(-32601),
            "message" := JStr("Method not found"),
            "data" := JObject(map["name" := called])])]))
  {
  }

  /** Only the two notifications go unanswered. */
  lemma NotificationsOnly(reg: Registry, m: map<string, Json>)
    ensures HandleMessage(reg, m).NoResponse? <==>
      GetOrNull(m, "method") in {JStr("notifications/initialized"), JStr("notifications/cancelled")}
  {
  }

  /** Every reply is a JSON-RPC 2.0 object that echoes the request's id and
      holds exactly one of "result" and "error". */
  lemma RepliesEchoId(reg: Registry, m: map<string, Json>)
    requires HandleMessage(reg, m).Reply?
    ensures var r := HandleMessage(reg, m).response;
      && r.JObject?
      && (r.fields.Keys == {"jsonrpc", "id", "result"} || r.fields.Keys == {"jsonrpc", "id", "error"})
    ensures var r := HandleMessage(reg, m).response;
      r.JObject? && r.fields["jsonrpc"] == JStr("2.0") && r.fields["id"] == GetOrNull(m, "id")
  {
    var called, id := GetOrNull(m, "method"), GetOrNull(m, "id");
    var params := Get(m, "params", JObject(map[]));
    if called == JStr("initialize") {
      InitializeReplyShape(reg, id, params);
    } else if called == JStr("tools/call") {
      CallToolReplyShape(reg, id, params);
    } else if called == JStr("ping") {
      ResponseShapes(id, JObject(map[]), 0, "");
    } else if called == JStr("tools/list") {
      ResponseShapes(id, JObject(map["tools" := JArray(ToolList(reg))]), 0, "");
    }
  }

  /** The well-formed JSON-RPC reply to a request with the given id. */
  predicate EchoesId(r: Json, id: Json)
  {
    && r.JObject?
    && (r.fields.Keys == {"jsonrpc", "id", "result"} || r.fields.Keys == {"jsonrpc", "id", "error"})
    && r.fields["jsonrpc"] == JStr("2.0") && r.fields["id"] == id
  }

  lemma InitializeReplyShape(reg: Registry, id: Json, params: Json)
    requires Initialize(reg, id, params).Reply?
    ensures EchoesId(Initialize(reg, id, params).response, id)
  {
    ResponseShapes(id, ServerDescription(reg), -32602, UnsupportedVersion);
    ResponseShapes(id, ServerDescription(reg), -32602, "Protocol version is required");
  }

  lemma CallToolReplyShape(reg: Registry, id: Json, params: Json)
    requires CallTool(reg, id, params).Reply?
    ensures EchoesId(CallTool(reg, id, params).response, id)
  {
    var name := GetOrNull(params.fields, "name");
    if !Truthy(name) {
      ResponseShapes(id, JNull, -32602, "Tool name is required");
    } else if !name.JStr? || Lookup(reg, name.s).None? {
      ResponseShapes(id, JNull, -32601, "Tool '" + PyStr(name) + "' not found");
    } else {
      ResponseShapes(id, CallResult(CallSpec(Lookup(reg, name.s).value, Get(params.fields, "arguments", JObject(map[])))), 0, "");
    }
  }

  /** An exception escapes only from `initialize` and `tools/call`: params
      that are not a dict, a truthy version that is not a string, or a truthy
      tool name that cannot be a dict key. */
  lemma RaisesExactly(reg: Registry, m: map<string, Json>)
    ensures var called, params := GetOrNull(m, "method"), Get(m, "params", JObject(map[]));
      HandleMessage(reg, m).Raises? <==>
        (called == JStr("initialize") && (!params.JObject?
          || (Truthy(GetOrNull(params.fields, "protocolVersion")) && !GetOrNull(params.fields, "protocolVersion").JStr?)))
        || (called == JStr("tools/call") && (!params.JObject?
          || (Truthy(GetOrNull(params.fields, "name")) && !Hashable(GetOrNull(params.fields, "name")))))
  {
  }

  /** `initialize` with a version string accepts it exactly when it does not
      sort before "2025-03-26", and then announces that version. */
  lemma InitializeVersion(reg: Registry, id: Json, params: Json, v: string)
    requires params.JObject? && "protocolVersion" in params.fields && params.fields["protocolVersion"] == JStr(v)
    requires v != ""
    ensures Initialize(reg, id, params) == Reply(
      if Text.LexLess(v, ProtocolVersion) then ErrorResponse(id, -32602, UnsupportedVersion)
      else ResultResponse(id, ServerDescription(reg)))
  {
  }

  /** The server's own version, and any version after it, is accepted. */
  lemma LaterVersionsAccepted(v: string)
    requires v == ProtocolVersion || Text.LexLess(ProtocolVersion, v)
    ensures !Text.LexLess(v, ProtocolVersion)
  {
    Text.LexTrichotomy(v, ProtocolVersion);
  }

  /** A call to a registered tool always gets a JSON-RPC result, never a
      JSON-RPC error: the tool's own failure is flagged `isError` inside the
      result, with the tool's error text as its content. */
  lemma CallRegisteredTool(reg: Registry, id: Json, params: Json, name: string)
    requires params.JObject? && "name" in params.fields && params.fields["name"] == JStr(name)
    requires name != "" && Lookup(reg, name).Some?
    ensures CallTool(reg, id, params) ==
      Reply(ResultResponse(id, CallResult(CallSpec(Lookup(reg, name).value, Get(params.fields, "arguments", JObject(map[]))))))
  {
  }

  /** A call naming no registered tool is answered with -32601 and the name. */
  lemma CallUnknownTool(reg: Registry, id: Json, params: Json, name: string)
    requires params.JObject? && "name" in params.fields && params.fields["name"] == JStr(name)
    requires name != "" && Lookup(reg, name).None?
    ensures CallTool(reg, id, params) == Reply(ErrorResponse(id, -32601, "Tool '" + name + "' not found"))
  {
  }

  // ---------------------------------------------------------------------
  // The HTTP exchange

  /** `wsgi.input.read(n)`: at most n bytes; a negative count reads all. */
  function Read(input: seq<Text.byte>, n: int): (body: seq<Text.byte>)
    ensures |body| <= |input| && body == input[..|body|]
    ensures n >= 0 ==> |body| == if n < |input| then n else |input|
    ensures n < 0 ==> body == input
  {
    if n < 0 || n >= |input| then input else input[..n]
  }

  /** The status and JSON body `handle_request` sends, before serialising. */
  datatype JsonReply = JsonReply(status: int, data: Json)

  /** `handle_request` up to the reply dict. `contentLength` is
      `int(environ.get("CONTENT_LENGTH", 0))`: a missing header is `Some(0)`,
      a header `int` cannot parse is None, which raises and becomes -32603.
      Whatever arrives, the reply is a JSON object sent with 200 or 202, and
      202 carries only `{"status": "ok"}`. */
  function Dispatch(reg: Registry, contentLength: Option<int>, input: seq<Text.byte>,
                    loads: seq<Text.byte> -> Option<Json>): (r: JsonReply)
    ensures r.data.JObject?
    ensures r.status == 200 || r.status == 202
    ensures r.status == 202 ==> r.data == JObject(map["status" := JStr("ok")])
  {
    match contentLength
    case None => JsonReply(200, ErrorResponse(JNull, -32603, "Internal error"))
    case Some(n) =>
      if n == 0 then JsonReply(200, ErrorResponse(JNull, -32600, "Empty request body"))
      else match loads(Read(input, n))
        case None => JsonReply(200, ErrorResponse(JNull, -32700, "Parse error"))
        case Some(message) =>
          match ValidateMessage(message)
          case Some(reason) => JsonReply(200, ErrorResponse(JNull, -32600, reason))
          case None =>
            match HandleMessage(reg, message.fields)
            case NoResponse => JsonReply(202, JObject(map["status" := JStr("ok")]))
            case Reply(r) => JsonReply(200, r)
            case Raises => JsonReply(200, ErrorResponse(JNull, -32603, "Internal error"))
  }

  /** `status_map.get(status, 'Error')`. */
  function Reason(status: int): string
  {
    if status == 200 then "OK" else if status == 202 then "Accepted" else "Error"
  }

  /** `_send_json_response`: JSON content type, a Content-Length that counts
      the characters of the serialised text, and the text encoded as UTF-8. */
  function SendJson(data: Json, status: int, dumps: Json -> string): (r: Http.HttpResponse)
    ensures r.status == status && r.body == Text.Utf8(dumps(data))
    ensures Http.HeaderValue(r.headers, "Content-Type") == "application/json"
    ensures Http.HeaderValue(r.headers, "Content-Length") == Text.Decimal(|dumps(data)|)
    ensures Text.DecimalValue(Http.HeaderValue(r.headers, "Content-Length")) == |dumps(data)|
  {
    var text := dumps(data);
    Text.DecimalRoundTrip(|text|);
    Http.HttpResponse(status, Reason(status),
      [("Content-Type", "application/json"), ("Content-Length", Text.Decimal(|text|))],
      Text.Utf8(text))
  }

  /** `handle_request`. */
  function HandleRequest(reg: Registry, contentLength: Option<int>, input: seq<Text.byte>,
                         loads: seq<Text.byte> -> Option<Json>, dumps: Json -> string): Http.HttpResponse
  {
    var reply := Dispatch(reg, contentLength, input, loads);
    SendJson(reply.data, reply.status, dumps)
  }

  /** The endpoint answers 202 Accepted exactly for the two notifications and
      200 OK otherwise; every failure before dispatch is a JSON-RPC error with
      a null id. */
  lemma DispatchStatus(reg: Registry, contentLength: Option<int>, input: seq<Text.byte>,
                       loads: seq<Text.byte> -> Option<Json>)
    ensures var r := Dispatch(reg, contentLength, input, loads);
      r.status == 202 <==>
        (contentLength.Some? && contentLength.value != 0
         && loads(Read(input, contentLength.value)).Some?
         && ValidateMessage(loads(Read(input, contentLength.value)).value).None?
         && HandleMessage(reg, loads(Read(input, contentLength.value)).value.fields).NoResponse?)
    ensures var r := Dispatch(reg, contentLength, input, loads);
      r.status == 200 || r.status == 202
    ensures contentLength == Some(0) ==>
      Dispatch(reg, contentLength, input, loads).data == ErrorResponse(JNull, -32600, "Empty request body")
    ensures contentLength.Some? && contentLength.value != 0 && loads(Read(input, contentLength.value)).None? ==>
      Dispatch(reg, contentLength, input, loads).data == ErrorResponse(JNull, -32700, "Parse error")
  {
  }

  /** How `handle_request` answers each outcome: an unparseable
      Content-Length or an exception from the handler is -32603 "Internal
      error", a zero length -32600 "Empty request body", an unparseable body
      -32700 "Parse error", and an invalid envelope -32600 with the
      validator's reason, all with a null id and status 200; a notification
      gets 202 `{"status": "ok"}`, and any other reply goes out unchanged
      with 200. */
  lemma DispatchSpec(reg: Registry, contentLength: Option<int>, input: seq<Text.byte>,
                     loads: seq<Text.byte> -> Option<Json>)
    ensures contentLength.None? ==>
      Dispatch(reg, contentLength, input, loads) == JsonReply(200, ErrorResponse(JNull, -32603, "Internal error"))
    ensures contentLength == Some(0) ==>
      Dispatch(reg, contentLength, input, loads) == JsonReply(200, ErrorResponse(JNull, -32600, "Empty request body"))
    ensures contentLength.Some? && contentLength.value != 0 && loads(Read(input, contentLength.value)).None? ==>
      Dispatch(reg, contentLength, input, loads) == JsonReply(200, ErrorResponse(JNull, -32700, "Parse error"))
    ensures contentLength.Some? && contentLength.value != 0 && loads(Read(input, contentLength.value)).Some? ==>
      var message := loads(Read(input, contentLength.value)).value;
      && (ValidateMessage(message).Some? ==>
            Dispatch(reg, contentLength, input, loads)
              == JsonReply(200, ErrorResponse(JNull, -32600, ValidateMessage(message).value)))
      && (ValidateMessage(message).None? && HandleMessage(reg, message.fields).Reply? ==>
            Dispatch(reg, contentLength, input, loads) == JsonReply(200, HandleMessage(reg, message.fields).response))
      && (ValidateMessage(message).None? && HandleMessage(reg, message.fields).Raises? ==>
            Dispatch(reg, contentLength, input, loads) == JsonReply(200, ErrorResponse(JNull, -32603, "Internal error")))
      && (ValidateMessage(message).None? && HandleMessage(reg, message.fields).NoResponse? ==>
            Dispatch(reg, contentLength, input, loads) == JsonReply(202, JObject(map["status" := JStr("ok")])))
  {
  }

  /** The declared Content-Length counts characters, so it equals the number
      of body bytes exactly when the serialised text is ASCII (as
      `json.dumps` produces by default). */
  lemma ContentLengthMatchesBody(data: Json, status: int, dumps: Json -> string)
    ensures var r := SendJson(data, status, dumps);
      Http.HeaderValue(r.headers, "Content-Length") == Text.Decimal(|dumps(data)|)
    ensures var r := SendJson(data, status, dumps);
      Text.IsAscii(dumps(data)) <==> |r.body| == |dumps(data)|
  {
    Text.Utf8Length(dumps(data));
  }
}
