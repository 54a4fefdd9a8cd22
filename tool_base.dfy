/**
  `MCPTool` (src/tidewave/tools/base.py): wraps a host function as a tool.
  The function's signature is given explicitly as a list of parameters;
  pydantic's per-type schema and validation are carried by each parameter's
  type hint.
*/
module ToolBase {
  import opened Wrappers
  import opened JsonValue
  import Text

  /** A type annotation: the JSON schema pydantic emits for it, and pydantic's
      validation of one value (the coerced value, or pydantic's message). */
  datatype TypeHint = TypeHint(schema: map<string, Json>, coerce: Json -> Result<Json, string>)

  /** One parameter as `inspect.signature` and `get_type_hints` report it. */
  datatype Param = Param(name: string, hint: Option<TypeHint>, default: Option<Json>)

  /** What calling the function with keyword arguments does: it returns a
      value (given as its `str()`), raises pydantic's ValidationError, or
      raises any other exception (each given as the exception's `str()`). */
  datatype CallOutcome = Returned(text: string) | RaisedValidation(message: string) | Raised(message: string)

  /** A host function offered as a tool: `__name__`, `__doc__`, signature, body. */
  datatype ToolFunction = ToolFunction(
    name: string,
    doc: Option<string>,
    params: seq<Param>,
    body: map<string, Json> -> CallOutcome)

  /** `{"type": "object", "properties": ..., "required": [...]}`, with the
      properties in signature order. */
  datatype InputSchema = InputSchema(properties: seq<(string, map<string, Json>)>, required: seq<string>)

  /** A constructed `MCPTool`. Its description is the one `__init__`
      computes once from the function, `Description(func)`. */
  datatype Tool = Tool(func: ToolFunction, name: string, inputSchema: InputSchema)

  /** One pydantic validation error: the field and pydantic's message. */
  datatype FieldError = FieldError(field: string, message: string)

  /** What `validate_and_call` returns: `{"content": [...]}` or `{"error": ...}`. */
  datatype ToolReply = Content(text: string) | Error(message: string)

  // ---------------------------------------------------------------------
  // Description

  /** `_get_description`: the first line of the stripped docstring, stripped,
      or a fallback naming the function when there is no docstring. */
  function Description(f: ToolFunction): string
  {
    if f.doc.Some? && f.doc.value != "" then
      Text.Strip(Text.Split(Text.Strip(f.doc.value), '\n')[0])
    else
      "Execute " + f.name + " function"
  }

  /** With a docstring, the description is the docstring's first non-blank-led
      line: it holds no line break, is already stripped, and is the stripped
      text before the first line break of the stripped docstring. */
  lemma DescriptionIsFirstLine(f: ToolFunction)
    requires f.doc.Some? && f.doc.value != ""
    ensures var d, s := Description(f), Text.Strip(f.doc.value);
      && '\n' !in d
      && Text.Strip(d) == d
      && d == Text.Strip(if '\n' in s then s[..Text.IndexOf(s, '\n')] else s)
  {
    var s := Text.Strip(f.doc.value);
    var line := Text.Split(s, '\n')[0];
    Text.SplitFirst(s, '\n');
    Text.StripCharsKeepsAbsent(line, Text.Whitespace, '\n');
    Text.StripCharsIdempotent(line, Text.Whitespace);
  }

  /** Without a docstring the description is "Execute <name> function". */
  lemma DescriptionFallback(f: ToolFunction)
    requires f.doc.None? || f.doc.value == ""
    ensures Description(f) == "Execute " + f.name + " function"
  {
  }

  /** Every description is already stripped, with or without a docstring. */
  lemma DescriptionStripped(f: ToolFunction)
    ensures Text.Strip(Description(f)) == Description(f)
  {
    if f.doc.Some? && f.doc.value != "" {
      DescriptionIsFirstLine(f);
    } else {
      var d := Description(f);
      assert d[0] == 'E' && d[|d| - 1] == 'n';
      Text.StripCharsNoop(d, Text.Whitespace);
    }
  }

  // ---------------------------------------------------------------------
  // Schema

  const MissingHint: string := "' missing type hint. All parameters must have explicit type annotations."

  function MissingHintMessage(name: string): string
  {
    "Parameter '" + name + MissingHint
  }

  /** The property pydantic emits for one field: the type's schema, with the
      default recorded when the parameter has one. */
  function PropertySchema(hint: TypeHint, default: Option<Json>): map<string, Json>
  {
    if default.Some? then hint.schema["default" := default.value] else hint.schema
  }

  /** The names of the first `n` parameters that have no default, in
      signature order. */
  function RequiredNames(params: seq<Param>, n: nat): seq<string>
    requires n <= |params|
  {
    if n == 0 then []
    else RequiredNames(params, n - 1) + (if params[n - 1].default.None? then [params[n - 1].name] else [])
  }

  /** The positions among the first `n` parameters that have no default, in order. */
  function DefaultlessPositions(params: seq<Param>, n: nat): seq<nat>
    requires n <= |params|
  {
    if n == 0 then []
    else DefaultlessPositions(params, n - 1) + (if params[n - 1].default.None? then [n - 1] else [])
  }

  /** `required` lists exactly the parameters with no default, in signature
      order: it is the names at the defaultless positions, and those
      positions are increasing and are all the defaultless ones. */
  lemma {:induction false} RequiredNamesExact(params: seq<Param>, n: nat)
    requires n <= |params|
    ensures var idx := DefaultlessPositions(params, n);
      && |RequiredNames(params, n)| == |idx|
      && (forall j :: 0 <= j < |idx| ==>
            (idx[j] < n && params[idx[j]].default.None? && RequiredNames(params, n)[j] == params[idx[j]].name))
      && (forall j, j' :: 0 <= j < j' < |idx| ==> idx[j] < idx[j'])
      && (forall k :: 0 <= k < n && params[k].default.None? ==> k in idx)
  {
    if n > 0 {
      RequiredNamesExact(params, n - 1);
      var idx0, req0 := DefaultlessPositions(params, n - 1), RequiredNames(params, n - 1);
      var idx, req := DefaultlessPositions(params, n), RequiredNames(params, n);
      forall j | 0 <= j < |idx|
        ensures idx[j] < n && params[idx[j]].default.None? && req[j] == params[idx[j]].name
      {
        if j < |idx0| {
          assert idx[j] == idx0[j] && req[j] == req0[j];
        }
      }
      forall k | 0 <= k < n && params[k].default.None?
        ensures k in idx
      {
        if k < n - 1 {
          assert k in idx0;
        }
      }
    }
  }

  /** `_generate_schema` as a value, over the first `n` parameters: an error
      for the first parameter without a type hint, otherwise the properties
      and the required list. */
  function SchemaUpTo(params: seq<Param>, n: nat): Result<InputSchema, string>
    requires n <= |params|
  {
    if n == 0 then Success(InputSchema([], []))
    else
      match SchemaUpTo(params, n - 1)
      case Failure(e) => Failure(e)
      case Success(s) =>
        var p := params[n - 1];
        if p.hint.None? then Failure(MissingHintMessage(p.name))
        else Success(InputSchema(
          s.properties + [(p.name, PropertySchema(p.hint.value, p.default))],
          s.required + (if p.default.None? then [p.name] else [])))
  }

  /** `_generate_schema` over the whole signature. */
  function SchemaOf(params: seq<Param>): Result<InputSchema, string>
  {
    SchemaUpTo(params, |params|)
  }

  /** The schema exists exactly when every parameter has a type hint. */
  lemma {:induction false} SchemaSucceeds(params: seq<Param>, n: nat)
    requires n <= |params|
    ensures SchemaUpTo(params, n).Success? <==> forall k :: 0 <= k < n ==> params[k].hint.Some?
  {
    if n > 0 {
      SchemaSucceeds(params, n - 1);
    }
  }

  /** Otherwise the error names the first unhinted parameter. */
  lemma {:induction false} SchemaFirstError(params: seq<Param>, n: nat)
    requires n <= |params| && SchemaUpTo(params, n).Failure?
    ensures exists k ::
      && 0 <= k < n && params[k].hint.None?
      && (forall j :: 0 <= j < k ==> params[j].hint.Some?)
      && SchemaUpTo(params, n).error == MissingHintMessage(params[k].name)
  {
    if SchemaUpTo(params, n - 1).Failure? {
      SchemaFirstError(params, n - 1);
      assert SchemaUpTo(params, n) == SchemaUpTo(params, n - 1);
    } else {
      SchemaSucceeds(params, n - 1);
      var k := n - 1;
      assert params[k].hint.None? && SchemaUpTo(params, n).error == MissingHintMessage(params[k].name);
      assert forall j :: 0 <= j < k ==> params[j].hint.Some?;
    }
  }

  /** A schema has one property per parameter, in order, and `required` is
      `RequiredNames`. */
  lemma {:induction false} SchemaValue(params: seq<Param>, n: nat)
    requires n <= |params| && SchemaUpTo(params, n).Success?
    ensures |SchemaUpTo(params, n).value.properties| == n
    ensures forall k :: 0 <= k < n ==> (params[k].hint.Some? &&
      SchemaUpTo(params, n).value.properties[k] == (params[k].name, PropertySchema(params[k].hint.value, params[k].default)))
    ensures SchemaUpTo(params, n).value.required == RequiredNames(params, n)
  {
    if n > 0 {
      SchemaValue(params, n - 1);
      var props := SchemaUpTo(params, n).value.properties;
      assert props[..n - 1] == SchemaUpTo(params, n - 1).value.properties;
    }
  }

  /** Both halves over the whole signature: when the schema exists and what
      it holds, and which error it gives otherwise. */
  lemma SchemaOfSpec(params: seq<Param>)
    ensures SchemaOf(params).Success? <==> forall k :: 0 <= k < |params| ==> params[k].hint.Some?
    ensures SchemaOf(params).Success? ==>
      && |SchemaOf(params).value.properties| == |params|
      && (forall k :: 0 <= k < |params| ==>
            SchemaOf(params).value.properties[k] == (params[k].name, PropertySchema(params[k].hint.value, params[k].default)))
      && SchemaOf(params).value.required == RequiredNames(params, |params|)
    ensures SchemaOf(params).Failure? ==>
      exists k :: 0 <= k < |params| && params[k].hint.None?
        && (forall j :: 0 <= j < k ==> params[j].hint.Some?)
        && SchemaOf(params).error == MissingHintMessage(params[k].name)
  {
    SchemaSucceeds(params, |params|);
    if SchemaOf(params).Success? {
      SchemaValue(params, |params|);
    } else {
      SchemaFirstError(params, |params|);
    }
  }

  /** `_generate_schema`: the loop over the signature that fills the fields
      and the required list, raising on the first parameter without a hint. */
  method GenerateSchema(f: ToolFunction) returns (r: Result<InputSchema, string>)
    ensures r == SchemaOf(f.params)
  {
    var properties: seq<(string, map<string, Json>)> := [];
    var required: seq<string> := [];
    var i := 0;
    while i < |f.params|
      invariant 0 <= i <= |f.params|
      invariant SchemaUpTo(f.params, i) == Success(InputSchema(properties, required))
    {
      var p := f.params[i];
      if p.hint.None? {
        r := Failure(MissingHintMessage(p.name));
        FailureSticks(f.params, i + 1);
        return;
      }
      var added := if p.default.None? then [p.name] else [];
      assert SchemaUpTo(f.params, i + 1) == Success(InputSchema(
        properties + [(p.name, PropertySchema(p.hint.value, p.default))], required + added));
      if p.default.None? {
        required := required + [p.name];
      } else {
        assert required + added == required;
      }
      properties := properties + [(p.name, PropertySchema(p.hint.value, p.default))];
      i := i + 1;
    }
    r := Success(InputSchema(properties, required));
  }

  /** Once a prefix of the signature fails, the whole signature fails with
      the same error: later parameters are never looked at. */
  lemma {:induction false} FailureSticks(params: seq<Param>, n: nat)
    requires n <= |params| && SchemaUpTo(params, n).Failure?
    ensures SchemaOf(params) == SchemaUpTo(params, n)
    decreases |params| - n
  {
    if n < |params| {
      assert SchemaUpTo(params, n + 1) == SchemaUpTo(params, n);
      FailureSticks(params, n + 1);
    }
  }

  /** The schema as the JSON object the handler publishes. */
  function SchemaJson(s: InputSchema): Json
  {
    JObject(map[
      "type" := JStr("object"),
      "properties" := JObject(PropertiesMap(s.properties)),
      "required" := JArray(seq(|s.required|, k requires 0 <= k < |s.required| => JStr(s.required[k])))])
  }

  function PropertiesMap(props: seq<(string, map<string, Json>)>): map<string, Json>
  {
    if |props| == 0 then map[]
    else PropertiesMap(props[..|props| - 1])[props[|props| - 1].0 := JObject(props[|props| - 1].1)]
  }

  // ---------------------------------------------------------------------
  // Construction

  /** `MCPTool(func)`: the name is the function's name; construction raises
      ValueError when a parameter has no type hint. */
  function NewTool(f: ToolFunction): (r: Result<Tool, string>)
    ensures r.Success? ==> r.value.name == f.name && r.value.func == f
  {
    match SchemaOf(f.params)
    case Failure(e) => Failure(e)
    case Success(s) => Success(Tool(f, f.name, s))
  }

  /** `MCPTool.__init__`: name, description, then the schema (which raises
      for a parameter without a type hint). */
  method Construct(f: ToolFunction) returns (r: Result<Tool, string>)
    ensures r == NewTool(f)
  {
    var schema := GenerateSchema(f);
    match schema {
      case Failure(e) => r := Failure(e);
      case Success(s) => r := Success(Tool(f, f.name, s));
    }
  }

  /** Construction fails exactly when some parameter lacks a type hint, and
      the error then says "missing type hint". */
  lemma NewToolFails(f: ToolFunction)
    ensures NewTool(f).Failure? <==> exists k :: 0 <= k < |f.params| && f.params[k].hint.None?
    ensures NewTool(f).Failure? ==> exists n :: NewTool(f).error == MissingHintMessage(n)
  {
    SchemaOfSpec(f.params);
  }

  /** `to_mcp_tool`: the stored name, description and schema. */
  function ToMcpTool(t: Tool): (j: Json)
    ensures j.JObject? && j.fields.Keys == {"name", "description", "inputSchema"}
    ensures j.fields["name"] == JStr(t.name) && j.fields["description"] == JStr(Description(t.func))
    ensures j.fields["inputSchema"] == SchemaJson(t.inputSchema)
  {
    JObject(map[
      "name" := JStr(t.name),
      "description" := JStr(Description(t.func)),
      "inputSchema" := SchemaJson(t.inputSchema)])
  }

  // ---------------------------------------------------------------------
  // Validation and call

  /** The hint `validate_and_call` falls back to for an unannotated parameter:
      `str`, which accepts only strings. */
  function StrHint(): TypeHint
  {
    TypeHint(map["type" := JStr("string")], (v: Json) => if v.JStr? then Success(v) else Failure("Input should be a valid string"))
  }

  /** Validation of one declared field against the supplied arguments. */
  function ValidateOne(p: Param, args: map<string, Json>): Result<Json, FieldError>
  {
    if p.name in args then
      match p.hint.GetOr(StrHint()).coerce(args[p.name])
      case Success(v) => Success(v)
      case Failure(m) => Failure(FieldError(p.name, m))
    else if p.default.Some? then Success(p.default.value)
    else Failure(FieldError(p.name, "Field required"))
  }

  /** Validation of all declared fields, in signature order: the validated
      keyword arguments and every error found. Undeclared keys are ignored. */
  function ValidateFields(params: seq<Param>, args: map<string, Json>): (map<string, Json>, seq<FieldError>)
  {
    if |params| == 0 then (map[], [])
    else
      var (vals, errs) := ValidateFields(params[..|params| - 1], args);
      var p := params[|params| - 1];
      match ValidateOne(p, args)
      case Success(v) => (vals[p.name := v], errs)
      case Failure(e) => (vals, errs + [e])
  }

  predicate DistinctNames(params: seq<Param>)
  {
    forall j, k :: 0 <= j < k < |params| ==> params[j].name != params[k].name
  }

  /** Validation fails exactly when some field fails; when it succeeds every
      parameter receives a value: the coerced argument when one was supplied
      and the declared default otherwise. */
  lemma {:induction false} ValidateFieldsSpec(params: seq<Param>, args: map<string, Json>)
    requires DistinctNames(params)
    ensures var (vals, errs) := ValidateFields(params, args);
      && (errs == [] <==> forall k :: 0 <= k < |params| ==> ValidateOne(params[k], args).Success?)
      && (errs == [] ==> forall k :: 0 <= k < |params| ==>
            params[k].name in vals && vals[params[k].name] == ValidateOne(params[k], args).value)
      && (errs == [] ==> forall k :: 0 <= k < |params| && params[k].name !in args ==>
            params[k].default.Some? && vals[params[k].name] == params[k].default.value)
  {
    if |params| > 0 {
      var init := params[..|params| - 1];
      assert forall k :: 0 <= k < |init| ==> params[k] == init[k];
      ValidateFieldsSpec(init, args);
      var (vals0, errs0) := ValidateFields(init, args);
      var (vals, errs) := ValidateFields(params, args);
      assert |errs| >= |errs0|;
      if errs == [] {
        forall k | 0 <= k < |params| && params[k].name !in args
          ensures params[k].default.Some? && vals[params[k].name] == params[k].default.value
        {
          assert ValidateOne(params[k], args).Success?;
        }
      }
    }
  }

  /** The error text of pydantic's ValidationError. */
  function ValidationText(toolName: string, errs: seq<FieldError>): string
  {
    Text.Decimal(|errs|) + (if |errs| == 1 then " validation error for " else " validation errors for ")
      + toolName + "_validator" + ErrorLines(errs)
  }

  function ErrorLines(errs: seq<FieldError>): string
  {
    if |errs| == 0 then "" else "\n" + errs[0].field + "\n  " + errs[0].message + ErrorLines(errs[1..])
  }

  /** Python's type name of a JSON value, as a TypeError message quotes it. */
  function TypeName(v: Json): string
  {
    match v
    case JNull => "NoneType"
    case JBool(_) => "bool"
    case JInt(_) => "int"
    case JStr(_) => "str"
    case JArray(_) => "list"
    case JObject(_) => "dict"
  }

  function InvalidArgumentsMessage(toolName: string, errs: seq<FieldError>): string
  {
    "Invalid arguments: " + ValidationText(toolName, errs)
  }

  function ExecutionErrorMessage(toolName: string, detail: string): string
  {
    "Error executing " + toolName + ": " + detail
  }

  /** The TypeError CPython raises for `validator_model(**args)` when `args`
      is not a mapping. The callee is named by its module and qualified
      name: the class `create_model` builds, recorded under the module that
      called it. */
  function NotAMappingMessage(toolName: string, args: Json): string
  {
    "tidewave.tools.base." + toolName + "_validator() argument after ** must be a mapping, not " + TypeName(args)
  }

  /** `validate_and_call` as a value. The function runs inside the same
      `try`, so a ValidationError it raises is reported like a failed
      validation of the arguments. */
  function CallSpec(t: Tool, args: Json): ToolReply
  {
    if !args.JObject? then
      Error(ExecutionErrorMessage(t.name, NotAMappingMessage(t.name, args)))
    else
      var (vals, errs) := ValidateFields(t.func.params, args.fields);
      if errs != [] then Error(InvalidArgumentsMessage(t.name, errs))
      else match t.func.body(vals)
        case Returned(text) => Content(text)
        case RaisedValidation(m) => Error("Invalid arguments: " + m)
        case Raised(m) => Error(ExecutionErrorMessage(t.name, m))
  }

  /** Which handler answers: the reply reads "Invalid arguments: " exactly
      when validation of the arguments fails or the function itself raises a
      ValidationError; every other failure, including arguments that are not
      a mapping, reads "Error executing <name>: ". */
  lemma CallErrorKinds(t: Tool, args: Json)
    ensures var r := CallSpec(t, args);
      (r.Error? && Text.StartsWith(r.message, "Invalid arguments: ")) <==>
        args.JObject? &&
        (ValidateFields(t.func.params, args.fields).1 != []
         || t.func.body(ValidateFields(t.func.params, args.fields).0).RaisedValidation?)
    ensures var r := CallSpec(t, args);
      (r.Error? && Text.StartsWith(r.message, "Error executing " + t.name + ": ")) <==>
        !args.JObject? ||
        (ValidateFields(t.func.params, args.fields).1 == []
         && t.func.body(ValidateFields(t.func.params, args.fields).0).Raised?)
  {
    var r := CallSpec(t, args);
    var inv, exe := "Invalid arguments: ", "Error executing " + t.name + ": ";
    assert inv[0] == 'I' && exe[0] == 'E';
    if r.Error? && Text.StartsWith(r.message, inv) {
      assert r.message[0] == 'I';
    }
    if r.Error? && Text.StartsWith(r.message, exe) {
      assert r.message[0] == 'E';
    }
  }

  /** `validate_and_call`: fills the validated arguments field by field, then
      calls the function; every failure becomes an error reply. */
  method ValidateAndCall(t: Tool, args: Json) returns (reply: ToolReply)
    ensures reply == CallSpec(t, args)
    ensures reply.Error? ==>
      Text.StartsWith(reply.message, "Invalid arguments: ")
      || Text.StartsWith(reply.message, "Error executing " + t.name + ": ")
    ensures reply.Content? <==>
      args.JObject? && ValidateFields(t.func.params, args.fields).1 == []
      && t.func.body(ValidateFields(t.func.params, args.fields).0).Returned?
  {
    if !args.JObject? {
      reply := Error(ExecutionErrorMessage(t.name, NotAMappingMessage(t.name, args)));
      assert Text.StartsWith(reply.message, "Error executing " + t.name + ": ");
      return;
    }
    var params := t.func.params;
    var vals: map<string, Json> := map[];
    var errs: seq<FieldError> := [];
    var i := 0;
    while i < |params|
      invariant 0 <= i <= |params|
      invariant ValidateFields(params[..i], args.fields) == (vals, errs)
    {
      assert params[..i + 1][..i] == params[..i];
      match ValidateOne(params[i], args.fields) {
        case Success(v) => vals := vals[params[i].name := v];
        case Failure(e) => errs := errs + [e];
      }
      i := i + 1;
    }
    assert params[..i] == params;
    if errs != [] {
      reply := Error(InvalidArgumentsMessage(t.name, errs));
      assert Text.StartsWith(reply.message, "Invalid arguments: ");
      return;
    }
    match t.func.body(vals)
    case Returned(text) =>
      reply := Content(text);
    case RaisedValidation(m) =>
      reply := Error("Invalid arguments: " + m);
      assert Text.StartsWith(reply.message, "Invalid arguments: ");
    case Raised(m) =>
      reply := Error(ExecutionErrorMessage(t.name, m));
      assert Text.StartsWith(reply.message, "Error executing " + t.name + ": ");
  }

  /** The reply as the dict `validate_and_call` returns. */
  function ReplyJson(r: ToolReply): Json
  {
    match r
    case Content(text) => JObject(map["content" := JArray([JObject(map["type" := JStr("text"), "text" := JStr(text)])])])
    case Error(m) => JObject(map["error" := JStr(m)])
  }

  /** A successful reply is exactly one text item holding `str(result)`; an
      error reply holds "error" and nothing else. */
  lemma ReplyJsonShape(r: ToolReply)
    ensures var j := ReplyJson(r);
      && j.JObject?
      && ("error" in j.fields <==> r.Error?)
      && (r.Content? ==> (j.fields.Keys == {"content"} && j.fields["content"].JArray?
            && |j.fields["content"].items| == 1
            && j.fields["content"].items[0] == JObject(map["type" := JStr("text"), "text" := JStr(r.text)])))
  {
  }
}
