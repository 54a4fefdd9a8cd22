# Tidewave (Python) request-handling core in Dafny

Tidewave embeds a Model Context Protocol (MCP) server in a Python web
application. This project models its request-handling core and proves
properties of that model:

- the WSGI security router that guards every `/tidewave…` path with a
  loopback-IP check and an Origin-host allow list, and routes
  `/tidewave/empty` and `/tidewave/mcp`;
- the JSON-RPC 2.0 dispatcher:
  - it validates envelopes, answers `ping`, `initialize`, `tools/list` and
    `tools/call`, and acknowledges the two notifications with 202;
  - it maps every failure to its JSON-RPC error code;
  - it keeps a name-keyed tool registry that a handler object fills in a loop;
- the tool descriptor:
  - the description comes from the docstring;
  - the input schema comes from the parameter list, and a missing type hint
    is refused;
  - `validate_and_call` never raises;
- the small tools:
  - `get_logs`, a bounded tail and grep over the log lines;
  - `get_source_location`, which resolves a dotted reference by four
    ordered fallbacks;
  - the two `execute_sql_query` tools, which truncate at 50 rows;
  - the Django and SQLAlchemy `get_models` listings, covering the subclass
    worklist, the filter, an in-place stable sort by name, the line format and the
    source path made relative to the working directory;
- the response and template rewriting:
  - the Flask header rewrite, which drops `X-Frame-Options` and rewrites the
    CSP;
  - the Django `debug_render` comments;
  - the Jinja2 AST annotation with BLOCK, TEMPLATE and SUBTEMPLATE comments.

Python values the code relies on are modelled explicitly:

- `Text` models `str` operations: strip, split, join, ASCII case mapping,
  decimal rendering, UTF-8 length and the lexicographic `<`;
- `JsonValue` models JSON values with Python truthiness and `dict.get`;
- `PyDict` models an insertion-ordered `dict` with last-write-wins;
- `PosixPath` models `PurePosixPath` parsing and `relative_to`.

Code the core calls but does not contain becomes a function parameter:

- `ipaddress` parsing;
- `urlparse(...).hostname`;
- `json.loads` and `json.dumps`;
- the pydantic coercion of each parameter;
- the tool's own function body;
- the compiled regular expression;
- `importlib`, `getattr` and `sys.modules`, as a runtime table;
- `inspect.getsourcefile` and `inspect.getsourcelines`;
- the database cursor or connection;
- `repr`, `os.path.relpath` and `modify_csp`.

Where the code does things step by step, the model is imperative too:

- `MCPHandler` is a class whose `InitTools` fills its registry in a loop;
- the Flask header dictionary is a `Dict` class whose `Set` and `Delete`
  update it in place;
- the model listing is sorted in place in an array;
- the subclass worklist, schema generation, log tail, attribute traversal,
  reference resolution, Jinja HTML search and block wrapping are methods
  with loops.

Each such method is proved equal to a specification function, and the
lemmas state what the source promises about that function.

## Model

| member | source | states |
|---|---|---|
| Middleware.Starts127Iff | src/tidewave/middleware.py:153 | the dotted rendering of an IPv4 address starts with "127." exactly when its first octet is 127 |
| Middleware.DigitsBeforeDot | src/tidewave/middleware.py:153 | a run of digits followed by "." and anything starts with "127." only if the digits are exactly "127" |
| Middleware.Decimal127 | src/tidewave/middleware.py:153 | 127 renders as "127" and "127" parses back to 127 |
| Middleware.IsLocalIp | src/tidewave/middleware.py:148-167 | only a parsed address can be local, and an IPv4 address is local exactly when its first octet is 127 |
| Middleware.V4Starts127Iff | src/tidewave/middleware.py:153-154 | an IPv4 address counts as "starts with 127." exactly when its first octet is 127 |
| Middleware.IsLocalIpSpec | src/tidewave/middleware.py:148-167 | an unparseable address is not local; an IPv4 address is local iff its first octet is 127; an IPv6 address is local iff it is ::1 or IPv4-mapped with first octet 127 |
| Middleware.ValidateAllowedOrigin | src/tidewave/middleware.py:121-146 | the early-exit loop over the allowed origins answers exactly OriginAllowed over the configured list, or over the defaults when the key is missing |
| Middleware.OriginAllowed | src/tidewave/middleware.py:121-146 | a host is allowed exactly when some pattern of the list allows it, so an empty list allows nothing |
| Middleware.DotPattern | src/tidewave/middleware.py:140-144 | a pattern ".d" admits exactly the host ".d", the bare domain d and any host ending in ".d" |
| Middleware.DotPatternSubdomain | src/tidewave/middleware.py:140-144 | a pattern ".d" admits every subdomain x.d |
| Middleware.PatternCaseInsensitive | src/tidewave/middleware.py:130 | lower-casing a pattern never changes which hosts it admits |
| Middleware.WildcardAllowsAll | src/tidewave/middleware.py:133-134 | a "*" anywhere in the allow list admits every host |
| Middleware.EmptyListRefusesAll | src/tidewave/middleware.py:126-127 | an explicitly empty allow list admits no host |
| Middleware.DefaultOriginsSpec | src/tidewave/middleware.py:123 | the default list admits exactly "localhost", its subdomains, ".localhost", "127.0.0.1" and "::1" |
| Middleware.SecurityMessagesNonEmpty | src/tidewave/middleware.py:95-117 | every security refusal carries a non-empty reason, so the router's truthiness test sees it |
| Middleware.SecurityError | src/tidewave/middleware.py:86-119 | a non-local client without remote access is refused for its address whatever its Origin; a passing client without an Origin is never refused; every other refusal is an "only accepts requests from allowed hosts" message |
| Middleware.CheckSecurity | src/tidewave/middleware.py:86-119 | the check returns exactly the reason SecurityError computes |
| Middleware.SecurityGate | src/tidewave/middleware.py:86-119 | the gate passes iff (the caller is local or remote access is allowed) and (there is no Origin, or its hostname parses and its lower-cased form is allowed) |
| Middleware.ErrorResponseLength | src/tidewave/middleware.py:169-186 | an error response's Content-Length header is the decimal byte length of its body |
| Middleware.EmptyRoute | src/tidewave/middleware.py:75-84 | the empty page is 200 text/html with no body and a Content-Length equal to the body length |
| Middleware.FullPath | src/tidewave/middleware.py:44-49 | the routed path ends with PATH_INFO, starts with SCRIPT_NAME when use_script_name is set, and is PATH_INFO alone otherwise |
| Middleware.Call | src/tidewave/middleware.py:42-73 | a path outside /tidewave always reaches the application; a /tidewave path that fails the gate is answered 403 whatever its route |
| Middleware.CallAnswers | src/tidewave/middleware.py:42-73 | the middleware answers itself exactly on /tidewave/empty, on /tidewave/mcp, or on a /tidewave path that fails the gate; every other request goes to the application |
| Middleware.McpBehindGate | src/tidewave/middleware.py:52-71 | on /tidewave/mcp a refused request gets 403 with the reason as body, an admitted POST reaches the MCP handler, and any other admitted method gets 405 "Method Not Allowed" |
| Middleware.McpRefused | src/tidewave/middleware.py:52-58 | a /tidewave/mcp request that fails the gate is answered 403 Forbidden with a non-empty reason |
| Middleware.McpAdmitted | src/tidewave/middleware.py:63-71 | a /tidewave/mcp request that passes the gate reaches the handler iff its upper-cased method is POST, and gets 405 otherwise |
| Middleware.EmptyRouteServed | src/tidewave/middleware.py:52-61 | a /tidewave/empty request that passes the gate gets the empty page: 200, text/html, empty body, Content-Length reading back as the body length |
| McpHandler.FindTool | src/tidewave/mcp_handler.py:209 | the registry position found holds the first tool of that name, and none is found only when no tool has that name |
| McpHandler.FindToolByNames | src/tidewave/mcp_handler.py:34 | lookup depends only on the tool names, position by position |
| McpHandler.FindToolAppend | src/tidewave/mcp_handler.py:34 | appending a tool changes lookup only for its own name when that name was absent |
| McpHandler.RegisterSpec | src/tidewave/mcp_handler.py:34-39 | storing a tool keeps names unique, makes its name find it, leaves every other name unchanged, and grows the registry only for a new name |
| McpHandler.BuiltSucceeds | src/tidewave/mcp_handler.py:29-39 | building the registry succeeds iff every function becomes a tool |
| McpHandler.BuiltFirstError | src/tidewave/mcp_handler.py:32-33 | a failed build reports the error of the first function that cannot become a tool |
| McpHandler.BuiltWellFormed | src/tidewave/mcp_handler.py:29-39 | a built registry has unique names and each entry is the tool its own function builds |
| McpHandler.BuiltNames | src/tidewave/mcp_handler.py:32-39 | a name is registered exactly when some function of that name was given |
| McpHandler.BuiltLastWins | src/tidewave/mcp_handler.py:32-39 | a name maps to the tool built from the last function given under it |
| McpHandler.Handler.constructor | src/tidewave/mcp_handler.py:19-25 | a new handler starts with an empty registry |
| McpHandler.Handler.InitTools | src/tidewave/mcp_handler.py:29-39 | the loop leaves exactly the built registry in the handler, or reports the first construction error |
| McpHandler.BuiltFailureSticks | src/tidewave/mcp_handler.py:32-33 | once a prefix of the functions fails to build, the whole build fails with that error |
| McpHandler.ValidateMessageSpec | src/tidewave/mcp_handler.py:85-111 | a message is valid iff it is an object with jsonrpc "2.0" and either a method or both id and result; each invalid case gets its own reason |
| McpHandler.ValidateMessage | src/tidewave/mcp_handler.py:85-111 | a valid message is an object with a "method" or a "result"; each rejection is one of the three fixed reasons |
| McpHandler.ResponseShapes | src/tidewave/mcp_handler.py:255-263 | result and error responses hold exactly jsonrpc "2.0", the request id and the payload |
| McpHandler.ToolList | src/tidewave/mcp_handler.py:244-253 | the tool list has one entry per registered tool |
| McpHandler.ToolListIsMcpTools | src/tidewave/mcp_handler.py:244-253 | each entry is that tool's name, stripped description and input schema |
| McpHandler.ServerDescription | src/tidewave/mcp_handler.py:176-185 | the initialize result holds exactly protocolVersion, capabilities, serverInfo and tools, always announcing "2025-03-26" and the registry's tool list |
| McpHandler.CallResultSpec | src/tidewave/mcp_handler.py:218-229 | a tool reply becomes a result without an "error" member; isError is present exactly for failed tools and its content carries the error text |
| McpHandler.NotificationsOnly | src/tidewave/mcp_handler.py:122-128 | no response is produced exactly for "notifications/initialized" and "notifications/cancelled" |
| McpHandler.RepliesEchoId | src/tidewave/mcp_handler.py:113-148 | every reply is a result or an error response carrying the incoming message's id |
| McpHandler.InitializeReplyShape | src/tidewave/mcp_handler.py:154-185 | every initialize reply echoes the request id |
| McpHandler.CallToolReplyShape | src/tidewave/mcp_handler.py:197-242 | every tools/call reply echoes the request id |
| McpHandler.CallTool | src/tidewave/mcp_handler.py:197-242 | tools/call is always answered or raises; its reply is an object; a missing or falsy name gets -32602 "Tool name is required"; a truthy hashable non-string name gets -32601 "Tool '<name>' not found"; a JSON-RPC result comes back only for a registered tool named by a string |
| McpHandler.RaisesExactly | src/tidewave/mcp_handler.py:113-209 | handling raises exactly when initialize or tools/call get non-object params, a truthy non-string protocolVersion, or a truthy unhashable tool name |
| McpHandler.HandleMessage | src/tidewave/mcp_handler.py:113-148 | every reply is an object; only initialize and tools/call can raise; only the two notifications go unanswered |
| McpHandler.HandleMessageSpec | src/tidewave/mcp_handler.py:113-195 | the method table: ping gets the empty result, tools/list gets {"tools": the tool list}, initialize and tools/call get their handlers' replies with the message's id and params (an empty dict when absent), and any other method gets -32601 "Method not found" with data.name the method |
| McpHandler.InitializeVersion | src/tidewave/mcp_handler.py:158-185 | a non-empty version below "2025-03-26" gets -32602 "Unsupported protocol version…"; any other version gets the server description |
| McpHandler.Initialize | src/tidewave/mcp_handler.py:154-185 | initialize is always answered or raises; its reply is an object; a missing or falsy protocolVersion gets -32602 "Protocol version is required"; a result is given only for a string version not below "2025-03-26" |
| McpHandler.LaterVersionsAccepted | src/tidewave/mcp_handler.py:166 | the server's own version and every lexicographically later one pass the version check |
| McpHandler.CallRegisteredTool | src/tidewave/mcp_handler.py:214-229 | calling a registered tool replies with a result built from that tool's validate-and-call outcome |
| McpHandler.CallUnknownTool | src/tidewave/mcp_handler.py:209-212 | calling an unregistered name gets -32601 "Tool '<name>' not found" |
| McpHandler.Read | src/tidewave/mcp_handler.py:51 | reading n bytes yields a prefix of the input of length min(n, input length); a negative n reads everything |
| McpHandler.DispatchStatus | src/tidewave/mcp_handler.py:41-83 | the endpoint answers 202 exactly for a well-formed notification and 200 otherwise; a zero length gives -32600 "Empty request body" and an unparseable body gives -32700 "Parse error" |
| McpHandler.DispatchSpec | src/tidewave/mcp_handler.py:41-83 | an unparseable Content-Length or a raising handler gets -32603 "Internal error", a zero length -32600 "Empty request body", an unparseable body -32700 "Parse error", an invalid envelope -32600 with the validator's reason, all with a null id and 200; a notification gets 202 {"status": "ok"}; any other reply is sent unchanged with 200 |
| McpHandler.Dispatch | src/tidewave/mcp_handler.py:41-83 | whatever arrives, the reply data is a JSON object with status 200 or 202, and 202 carries only {"status": "ok"} |
| McpHandler.SendJson | src/tidewave/mcp_handler.py:265-278 | the response keeps the status, is application/json, carries the UTF-8 of the serialised text, and declares a Content-Length that reads back as the character count |
| McpHandler.ContentLengthMatchesBody | src/tidewave/mcp_handler.py:265-278 | Content-Length is the character count of the JSON text, which equals the body's byte count exactly when the text is ASCII |
| ToolBase.DescriptionIsFirstLine | src/tidewave/tools/base.py:25-28 | with a docstring the description is the stripped first line of the stripped docstring, has no newline and is itself stripped |
| ToolBase.DescriptionFallback | src/tidewave/tools/base.py:29 | without a docstring the description is "Execute <name> function" |
| ToolBase.DescriptionStripped | src/tidewave/tools/base.py:23-29 | stripping a description changes nothing, so the handler's extra strip is harmless |
| ToolBase.RequiredNamesExact | src/tidewave/tools/base.py:50-54 | the required list holds, in signature order, exactly the names of the parameters without a default |
| ToolBase.SchemaSucceeds | src/tidewave/tools/base.py:40-46 | the schema of a parameter prefix exists iff every parameter in it has a type hint |
| ToolBase.SchemaFirstError | src/tidewave/tools/base.py:42-46 | a schema failure names the first parameter lacking a type hint, with the "missing type hint" message |
| ToolBase.SchemaValue | src/tidewave/tools/base.py:48-68 | a successful schema has one property per parameter, built from its hint and default, and the required names |
| ToolBase.SchemaOfSpec | src/tidewave/tools/base.py:31-68 | the whole schema succeeds iff all parameters are hinted, then holds every property and the required names; otherwise it reports the first unhinted parameter |
| ToolBase.GenerateSchema | src/tidewave/tools/base.py:31-68 | the loop over the parameters computes exactly SchemaOf |
| ToolBase.FailureSticks | src/tidewave/tools/base.py:42-46 | once a parameter prefix fails, the whole schema fails with the same error |
| ToolBase.NewTool | src/tidewave/tools/base.py:17-21 | a constructed tool carries the function and its name |
| ToolBase.Construct | src/tidewave/tools/base.py:17-21 | the constructor builds exactly NewTool |
| ToolBase.NewToolFails | src/tidewave/tools/base.py:40-46 | construction fails iff some parameter lacks a type hint, and then with a missing-hint message |
| ToolBase.ToMcpTool | src/tidewave/tools/base.py:101-107 | the MCP definition holds exactly the tool's name, description and input schema |
| ToolBase.ValidateFieldsSpec | src/tidewave/tools/base.py:77-91 | validation succeeds iff every parameter validates; then each supplied argument is coerced and each omitted argument gets its declared default |
| ToolBase.ValidateAndCall | src/tidewave/tools/base.py:70-99 | the call never raises: an error reply starts with "Invalid arguments: " or "Error executing <name>: ", and content comes back exactly when validation succeeds and the function returns |
| ToolBase.CallErrorKinds | src/tidewave/tools/base.py:87-99 | the reply reads "Invalid arguments: " exactly when argument validation fails or the function itself raises a ValidationError, and "Error executing <name>: " exactly for non-mapping arguments or any other exception the function raises |
| ToolBase.ReplyJsonShape | src/tidewave/tools/base.py:94-99 | a reply has an "error" member iff it failed; a success holds exactly one text content item carrying str(result) |
| GetLogs.Matching | src/tidewave/tools/get_logs.py:64-66 | the filtered lines are no more than the input and all match the pattern |
| GetLogs.MatchingKeepsAll | src/tidewave/tools/get_logs.py:64-66 | every matching line is kept and every kept line is a matching input line |
| GetLogs.LastN | src/tidewave/tools/get_logs.py:61 | the bounded buffer holds the last min(n, length) lines, in order |
| GetLogs.LastNAppend | src/tidewave/tools/get_logs.py:66-69 | appending a line to a full buffer drops its oldest line |
| GetLogs.KeptStep | src/tidewave/tools/get_logs.py:63-69 | reading one more line appends it to the filtered lines iff it matches (or there is no pattern) |
| GetLogs.GetLogs | src/tidewave/tools/get_logs.py:36-80 | the loop over the log lines computes exactly LogsOf |
| GetLogs.LogsOf | src/tidewave/tools/get_logs.py:36-80 | a missing log gives the empty text; an existing one gives the tail ValueError for tail <= 0, the invalid-regex ValueError with the compile error, or non-empty text: the stripped join of the last tail kept lines (those the pattern matches, or all without a pattern), else "No log entries found matching pattern '<grep>'" or "No log entries found" |
| GetLogs.LogsWindow | src/tidewave/tools/get_logs.py:61-72 | the output window holds at most tail lines, is the suffix of the matching lines, is full whenever enough lines match, and holds only matching input lines |
| GetLogs.LastNWithin | src/tidewave/tools/get_logs.py:61 | the buffer holds only lines from its input |
| GetLogs.LogsNeverEmptyOnSuccess | src/tidewave/tools/get_logs.py:47-78 | a missing log file gives ""; otherwise a success is never empty, and failure happens exactly for a non-positive tail or a pattern that does not compile |
| SourceLocation.TraverseConcat | src/tidewave/tools/get_src_location.py:122-126 | traversing a + b is traversing a, then b from where a stopped |
| SourceLocation.TraverseAttrs | src/tidewave/tools/get_src_location.py:122-126 | the attribute loop computes exactly Traverse |
| SourceLocation.NonEmpty | src/tidewave/tools/get_src_location.py:81 | kept segments are non-empty pieces of the input |
| SourceLocation.Parts | src/tidewave/tools/get_src_location.py:81 | the parts of a reference are non-empty and contain no "." |
| SourceLocation.Progressive | src/tidewave/tools/get_src_location.py:93-101 | an exception that escapes strategy 2 is neither ImportError nor AttributeError |
| SourceLocation.ProgressiveNone | src/tidewave/tools/get_src_location.py:93-101 | strategy 2 finds nothing exactly when every prefix failed to import, or to resolve the rest of the chain, with ImportError or AttributeError |
| SourceLocation.Loaded | src/tidewave/tools/get_src_location.py:103-117 | a chain that resolves on the loaded module wins; the builtins are used only when that module is absent or lacks an attribute, and their AttributeError gives None; an AttributeError never escapes |
| SourceLocation.Resolve | src/tidewave/tools/get_src_location.py:81-90 | a reference without parts finds nothing, and a reference that imports as a whole is that module |
| SourceLocation.ProgressiveImport | src/tidewave/tools/get_src_location.py:93-101 | the prefix loop computes exactly Progressive from the longest proper prefix down |
| SourceLocation.FromLoaded | src/tidewave/tools/get_src_location.py:103-117 | the sys.modules and builtins steps compute exactly Loaded |
| SourceLocation.ResolveReference | src/tidewave/tools/get_src_location.py:64-119 | the strategy loop computes exactly Resolve |
| SourceLocation.ProgressiveLongest | src/tidewave/tools/get_src_location.py:93-101 | a progressive-import success comes from the longest importable module prefix whose attribute chain resolves |
| SourceLocation.ResolveSound | src/tidewave/tools/get_src_location.py:86-119 | a resolved object comes from the full import; or, after an ImportError, from the longest module prefix whose chain resolves, every longer attempt stepped over; or, with every attempt stepped over, from sys.modules, or from builtins when sys.modules lacks it |
| SourceLocation.ResolveFirstWins | src/tidewave/tools/get_src_location.py:86-119 | the first strategy that succeeds wins: the full import, then after an ImportError strategy 2, then only when strategy 2 found nothing strategies 3 and 4; any other exception escapes at the step that raised it |
| SourceLocation.TraverseWellBehaved | src/tidewave/tools/get_src_location.py:122-126 | with a runtime whose getattr raises only the expected kinds, traversal fails only with those kinds |
| SourceLocation.ProgressiveWellBehaved | src/tidewave/tools/get_src_location.py:93-101 | the same for the progressive-import strategy |
| SourceLocation.ResolveWellBehaved | src/tidewave/tools/get_src_location.py:64-119 | the same for the whole resolution |
| SourceLocation.SourceLocationOutcome | src/tidewave/tools/get_src_location.py:8-61 | for a runtime whose imports and attribute lookups raise only ImportError, AttributeError, TypeError or OSError, get_source_location fails only with ValueError or NameError, and succeeds only with "<file>:<line>" for a non-empty file |
| SourceLocation.BlankReferenceNotFound | src/tidewave/tools/get_src_location.py:35-39 | a non-empty reference with no segments after stripping gives NameError "could not find source location for …" |
| SourceLocation.LocationText | src/tidewave/tools/get_src_location.py:32-52 | a normalised resolution failure propagates; None is not found; a resolved object gives "<file>:<line>" from getsourcefile and getsourcelines when the file is non-empty, NameError "could not find source location for <ref>" for a missing or empty file or an OSError or TypeError from inspect, and any other inspect failure unchanged |
| SourceLocation.LocationOfResolved | src/tidewave/tools/get_src_location.py:36-52 | for a runtime whose inspect raises only OSError or TypeError, a resolved reference yields exactly "<getsourcefile>:<line>" when the object is not None and inspect names a non-empty file, and NameError "could not find source location for <ref>" otherwise |
| SourceLocation.GetSourceLocation | src/tidewave/tools/get_src_location.py:8-52 | the empty reference raises ValueError "Reference must be a non-empty string"; a location is reported only for an object the stripped reference resolves to; TypeError and OSError never escape |
| FlaskMiddleware.ProcessResponse | src/tidewave/flask/middleware.py:39-54 | the in-place dictionary rewrite returns exactly ProcessedHeaders |
| FlaskMiddleware.ProcessedHeadersSpec | src/tidewave/flask/middleware.py:46-54 | the result has unique names and no X-Frame-Options; the CSP is modify_csp of the last CSP value or stays absent; every other name keeps its last value; names keep first-seen order |
| FlaskMiddleware.ProcessedHeaders | src/tidewave/flask/middleware.py:39-54 | the rewritten headers have one entry per name and no X-Frame-Options |
| FlaskMiddleware.CallSpec | src/tidewave/flask/middleware.py:17-37 | a missing PATH_INFO raises; the status always passes through; /tidewave responses keep their headers and all others lose X-Frame-Options |
| FlaskMiddleware.Call | src/tidewave/flask/middleware.py:17-37 | the status always passes through, and a response outside /tidewave never carries X-Frame-Options |
| SqlResult.Preamble | src/tidewave/django/tools/sql.py:44-48 | the truncation preamble is never empty |
| SqlResult.ShapeSpec | src/tidewave/django/tools/sql.py:37-59 | the result keeps the columns; num_rows equals the kept row count, at most 50; the kept rows are the first rows in order, all of them when there are at most 50 and exactly 50 otherwise; the preamble is empty iff there are at most 50 rows |
| SqlResult.PreambleCountsRows | src/tidewave/django/tools/sql.py:44-45 | the preamble starts with "Query returned N rows." for the full row count |
| DjangoSql.ColumnNames | src/tidewave/django/tools/sql.py:37 | column i is the name of description entry i |
| DjangoSql.ExecuteSqlQuerySpec | src/tidewave/django/tools/sql.py:8-63 | missing arguments run as []; database errors propagate; no description gives "OK"; otherwise the output is the preamble followed by the repr of at most 50 leading rows, with one column per description entry |
| SqlalchemySql.StatementFor | src/tidewave/sqlalchemy/sql.py:29-36 | the statement keeps the query and carries parameters exactly when the arguments are present and non-empty |
| SqlalchemySql.ExecuteSqlQuerySpec | src/tidewave/sqlalchemy/sql.py:9-70 | errors propagate; a statement returning no rows gives "OK"; otherwise the output is the preamble followed by the repr of at most 50 leading rows, with the result keys as columns |
| ModelListing.NotAfterTransitive | src/tidewave/sqlalchemy/models.py:36 | the by-name order is transitive |
| ModelListing.NotAfterFlip | src/tidewave/sqlalchemy/models.py:36 | the by-name order is total |
| ModelListing.SortByName | src/tidewave/django/tools/models.py:23 | the in-place sort leaves the array sorted by name, a permutation of its old contents with each name's models in their old order, and so equal to Python's stable sort of the old contents |
| ModelListing.Insert | src/tidewave/sqlalchemy/models.py:36 | one insertion step extends the sorted prefix by one element, permuting the array and keeping each name's models in order |
| ModelListing.SwapKeepsNamed | src/tidewave/sqlalchemy/models.py:36 | swapping neighbours of different names keeps each name's models in order |
| ModelListing.InsertByNameNamed | src/tidewave/django/models.py:20 | inserting a model puts it after the models of its name already present |
| ModelListing.InsertByNameSorted | src/tidewave/django/models.py:20 | inserting a model keeps a by-name sorted sequence sorted |
| ModelListing.StableSortSpec | src/tidewave/django/models.py:20 | the stable sort is sorted by name and keeps each name's models in input order |
| ModelListing.SortedByNamedUnique | src/tidewave/django/models.py:20 | two by-name sorted sequences with the same models of each name in the same order are equal, so the stable sort is the only such result |
| ModelListing.InsertStart | src/tidewave/sqlalchemy/models.py:36 | the insertion invariant holds before the first swap |
| ModelListing.InsertStep | src/tidewave/sqlalchemy/models.py:36 | swapping an out-of-order neighbour preserves the insertion invariant |
| ModelListing.InsertDone | src/tidewave/sqlalchemy/models.py:36 | when no swap is needed the prefix is sorted |
| ModelListing.FormatListing | src/tidewave/sqlalchemy/models.py:38-43 | the line-building loop computes exactly Listing |
| ModelListing.FailureSticks | src/tidewave/sqlalchemy/models.py:39-41 | once a location lookup fails, the whole listing fails with that error |
| ModelListing.ListingLinesSpec | src/tidewave/sqlalchemy/models.py:38-43 | the listing succeeds iff every location lookup does, and then has one line per model, in order |
| ModelListing.LineShape | src/tidewave/sqlalchemy/models.py:41 | each line starts with "* <name>" and has no newline when neither name nor location has one |
| ModelListing.ListingSplits | src/tidewave/sqlalchemy/models.py:43 | splitting the joined listing at newlines gives back its lines |
| SqlalchemyModels.UnionAllConcat | src/tidewave/sqlalchemy/models.py:58 | the union of concatenated set lists is the union of the unions |
| SqlalchemyModels.UnionAllMember | src/tidewave/sqlalchemy/models.py:58 | an element is in the union iff it is in one of the sets |
| SqlalchemyModels.DescendantsBelow | src/tidewave/sqlalchemy/models.py:48-61 | every descendant ranks strictly below its ancestor, so no class is its own descendant |
| SqlalchemyModels.DescendantsUnfold | src/tidewave/sqlalchemy/models.py:55-59 | a class's descendants are its direct subclasses plus their descendants |
| SqlalchemyModels.DescendantsOfConcat | src/tidewave/sqlalchemy/models.py:59 | the descendants of a concatenated worklist are the union of both parts' |
| SqlalchemyModels.SumConcat | src/tidewave/sqlalchemy/models.py:55-59 | sums distribute over concatenation |
| SqlalchemyModels.WeightsConcat | src/tidewave/sqlalchemy/models.py:55-59 | worklist weights distribute over concatenation |
| SqlalchemyModels.VisitStep | src/tidewave/sqlalchemy/models.py:56-59 | popping a class and pushing its subclasses preserves found plus pending descendants, and the worklist weight drops |
| SqlalchemyModels.AllSubclasses | src/tidewave/sqlalchemy/models.py:48-61 | the worklist returns every transitive subclass exactly once |
| SqlalchemyModels.ListOf | src/tidewave/sqlalchemy/models.py:61 | list(set) holds each element of the set exactly once |
| SqlalchemyModels.HasColumns | src/tidewave/sqlalchemy/models.py:64-76 | the attribute scan answers exactly "some public attribute is a Column" |
| SqlalchemyModels.ConcreteAmongCount | src/tidewave/sqlalchemy/models.py:19-30 | the filter keeps each concrete class as often as it occurs and drops every other class |
| SqlalchemyModels.GetModels | src/tidewave/sqlalchemy/models.py:9-43 | with no concrete subclass the result is "No concrete models found that inherit from <Base>"; otherwise it is the listing of a by-name sorted permutation of the concrete subclasses |
| SqlalchemyModels.BaseNeverListed | src/tidewave/sqlalchemy/models.py:21-22 | the base class is never among the listed models, and every listed model ranks below it |
| DjangoModels.NonAbstract | src/tidewave/django/models.py:15 | the filter never adds models |
| DjangoModels.NonAbstractSpec | src/tidewave/django/models.py:15-18 | a class is kept iff a non-abstract model of it is given, and nothing is kept iff every model is abstract |
| DjangoModels.GetModels | src/tidewave/django/models.py:6-27 | with no non-abstract model the result is "No models found in the Django application"; otherwise it is the listing of the stable by-name sort of them, equal names in registry order |
| DjangoToolModels.RelativeSourceLocationSpec | src/tidewave/django/tools/models.py:42-48 | a known file gives "<path>:<line>", where path is relative to cwd when the file is under it and the file as given otherwise |
| DjangoToolModels.RelativeSourceLocationErrors | src/tidewave/django/tools/models.py:33-51 | only exceptions other than OSError and TypeError escape; a missing or empty file gives None |
| DjangoToolModels.RelativeSourceLocation | src/tidewave/django/tools/models.py:33-51 | a location needs both inspections to succeed and a non-empty file; OSError and TypeError never escape |
| DjangoToolModels.GetModels | src/tidewave/django/tools/models.py:9-30 | with no non-abstract model the result is the no-models message; otherwise it is the listing of the stable by-name sort of them, equal names in registry order, each line located relative to cwd |
| DjangoTemplates.LastExtendsNone | src/tidewave/django/templates.py:32-35 | there is no parent exactly when the node list has no extends node |
| DjangoTemplates.LastExtendsAt | src/tidewave/django/templates.py:33-35 | the parent is the last extends node's name with quotes stripped from both ends |
| DjangoTemplates.FindExtends | src/tidewave/django/templates.py:32-35 | the loop computes exactly LastExtends |
| DjangoTemplates.GetDebugName | src/tidewave/django/templates.py:31-46 | the method returns the fallback name and the last extends parent |
| DjangoTemplates.DebugName | src/tidewave/django/templates.py:31-46 | without an origin only the template's own truthy name counts, so an empty name can come only from the origin |
| DjangoTemplates.DebugNameOrder | src/tidewave/django/templates.py:37-46 | the name falls back from origin.template_name to origin.name to a non-empty self.name |
| DjangoTemplates.CleanTemplatePathSpec | src/tidewave/django/templates.py:49-63 | a relative path, or a path without BASE_DIR, is kept; an absolute path under BASE_DIR becomes relative to it; any other path is kept |
| DjangoTemplates.CleanTemplatePath | src/tidewave/django/templates.py:49-63 | the result is None exactly for a falsy name, and a path not under BASE_DIR is only normalised |
| DjangoTemplates.DebugRenderPassThrough | src/tidewave/django/templates.py:8-19 | content that is not HTML after stripping, or a template without a name, is returned unchanged |
| DjangoTemplates.DebugRenderFrames | src/tidewave/django/templates.py:21-28 | otherwise the output is the start comment, the content verbatim, then the end comment |
| DjangoTemplates.FramedStartsWithComment | src/tidewave/django/templates.py:21-28 | output framed by the two comments starts with "<!-- Template: " and is longer than the framed text |
| DjangoTemplates.ParentInfoSpec | src/tidewave/django/templates.py:24 | the extends note is empty iff there is no parent, and otherwise reads "(extends: <clean path>)" |
| DjangoTemplates.DebugRender | src/tidewave/django/templates.py:8-29 | output not starting with "<" after stripping is left alone; changed output starts with "<!-- Template: " and is longer than what was rendered |
| JinjaAnnotation.HasHtmlContentInAst | src/tidewave/jinja2/__init__.py:24-34 | the search answers exactly "some node has a descendant text containing '<'" |
| JinjaAnnotation.HasExtendsNode | src/tidewave/jinja2/__init__.py:102-110 | the search answers exactly "some node is or contains an extends node" |
| JinjaAnnotation.WrapBlocksWithAnnotations | src/tidewave/jinja2/__init__.py:36-70 | the loop computes exactly Wrap |
| JinjaAnnotation.WrapShape | src/tidewave/jinja2/__init__.py:36-70 | wrapping keeps length and order, keeps each node's kind and block name, and leaves leaf nodes untouched |
| JinjaAnnotation.WrapNode | src/tidewave/jinja2/__init__.py:36-70 | a node keeps its kind, a block its name, and any node that is neither a block nor has a body or nodes list is unchanged |
| JinjaAnnotation.WrapNodeNoHtml | src/tidewave/jinja2/__init__.py:59-68 | a node without HTML comes back unchanged |
| JinjaAnnotation.WrapNoHtml | src/tidewave/jinja2/__init__.py:59-68 | a body without HTML comes back unchanged |
| JinjaAnnotation.WrapNodeExtends | src/tidewave/jinja2/__init__.py:36-70 | wrapping neither adds nor removes extends nodes below a node |
| JinjaAnnotation.WrapExtends | src/tidewave/jinja2/__init__.py:81-82 | wrapping a body does not change whether it contains an extends node |
| JinjaAnnotation.NoExtendsInText | src/tidewave/jinja2/__init__.py:42-52 | an inserted comment node contains no extends node |
| JinjaAnnotation.AnyExtendsConcat | src/tidewave/jinja2/__init__.py:104-110 | a concatenated body contains extends iff one of its parts does |
| JinjaAnnotation.BlockStartIsHtml | src/tidewave/jinja2/__init__.py:42-48 | the inserted BLOCK comment itself counts as HTML |
| JinjaAnnotation.UnwrapWrapNode | src/tidewave/jinja2/__init__.py:40-68 | removing the inserted BLOCK comments restores the original node |
| JinjaAnnotation.UnwrapWrap | src/tidewave/jinja2/__init__.py:36-70 | removing the inserted BLOCK comments restores the original body |
| JinjaAnnotation.Parse | src/tidewave/jinja2/__init__.py:72-100 | the tag handler computes exactly ParseBody |
| JinjaAnnotation.ParseBodySpec | src/tidewave/jinja2/__init__.py:77-100 | a body without HTML is returned unchanged; with extends only a SUBTEMPLATE comment is prepended; otherwise TEMPLATE and END TEMPLATE comments enclose it; the wrapped body always unwraps to the input |
| JinjaAnnotation.ParseBody | src/tidewave/jinja2/__init__.py:72-100 | the body comes back untouched exactly when it holds no HTML, and no node is dropped |
| JinjaAnnotation.PreprocessSpec | src/tidewave/jinja2/__init__.py:16-22 | without a filename the source is unchanged; with one it sits verbatim between the template_debug tag for its relative path and the end tag |
| JinjaAnnotation.Preprocess | src/tidewave/jinja2/__init__.py:16-22 | the source changes exactly when the file name is truthy, and is never shortened |
| PyDict.Keys | src/tidewave/flask/middleware.py:54 | the key list has one entry per item, in order |
| PyDict.Find | src/tidewave/flask/middleware.py:47 | the position found is the first entry with that key, or the end when there is none |
| PyDict.LookupPresent | src/tidewave/flask/middleware.py:47-49 | a key has a value iff it is among the keys |
| PyDict.DedupMembers | src/tidewave/flask/middleware.py:46 | deduplicating keys keeps exactly the same members |
| PyDict.WithoutMembers | src/tidewave/flask/middleware.py:48 | removing a key keeps exactly the other members |
| PyDict.PutSpec | src/tidewave/flask/middleware.py:50-52 | assignment keeps keys unique, sets the key, leaves other keys alone, and appends a new key at the end |
| PyDict.FindAt | src/tidewave/flask/middleware.py:47 | the first matching position is where the key lookup stops |
| PyDict.RemoveSpec | src/tidewave/flask/middleware.py:47-48 | deletion keeps keys unique, removes the key, leaves other keys alone, and keeps the others' order |
| PyDict.RemoveAt | src/tidewave/flask/middleware.py:48 | deleting a present key removes it and leaves the other lookups unchanged |
| PyDict.RemoveIndex | src/tidewave/flask/middleware.py:48 | deleting a present key removes exactly its entry and closes the gap |
| PyDict.RemoveOther | src/tidewave/flask/middleware.py:48 | deleting a key leaves every other key's value unchanged |
| PyDict.RemoveKeys | src/tidewave/flask/middleware.py:48 | deleting a key removes just that key from the key order |
| PyDict.WithoutAbsent | src/tidewave/flask/middleware.py:47 | removing an absent key changes nothing |
| PyDict.WithoutUnique | src/tidewave/flask/middleware.py:48 | removing a key that occurs once cuts out exactly that position |
| PyDict.FromItemsSpec | src/tidewave/flask/middleware.py:46 | dict(items) has unique keys in first-seen order, each holding its last value |
| PyDict.Dict.FromPairs | src/tidewave/flask/middleware.py:46 | the new dictionary holds dict(items) |
| PyDict.Dict.Contains | src/tidewave/flask/middleware.py:47-49 | membership is exactly presence among the keys |
| PyDict.Dict.Set | src/tidewave/flask/middleware.py:50-52 | item assignment updates the entries to Put of the old ones |
| PyDict.Dict.Delete | src/tidewave/flask/middleware.py:48 | del updates the entries to Remove of the old ones |
| PyDict.Dict.Get | src/tidewave/flask/middleware.py:51 | indexing returns the value stored under the key |
| PosixPath.Components | src/tidewave/django/tools/models.py:44 | path components are non-empty pieces of the input other than "." |
| PosixPath.Parse | src/tidewave/django/tools/models.py:44 | a parsed path is well formed |
| PosixPath.RelativeTo | src/tidewave/django/tools/models.py:45 | relative_to succeeds iff both paths agree on being absolute and the base's parts are a prefix of the path's |
| PosixPath.RelativeJoin | src/tidewave/django/tools/models.py:45 | a relative result is not absolute, is well formed, and joined to the base gives the path back |
| PosixPath.ComponentsKeep | src/tidewave/django/templates.py:55 | splitting keeps pieces that are already components |
| PosixPath.ParseRender | src/tidewave/django/tools/models.py:46 | rendering a well-formed path and parsing it back gives the same path |
| PosixPath.ParseRoot | src/tidewave/django/templates.py:55 | "/" parses to the root |
| PosixPath.ParseDot | src/tidewave/django/templates.py:55 | "." parses to the empty relative path |
| PosixPath.ParseRenderAbsolute | src/tidewave/django/templates.py:63 | the round trip holds for absolute paths with parts |
| PosixPath.ParseRenderRelative | src/tidewave/django/templates.py:63 | the round trip holds for relative paths with parts |
| PosixPath.NotRooted | src/tidewave/django/tools/models.py:46 | joining components never gives a string starting with "/" |
| PosixPath.ComponentsDropFirstEmpty | src/tidewave/django/templates.py:55 | a leading empty piece, as from a leading "/", is dropped |
| PosixPath.JoinHead | src/tidewave/django/tools/models.py:46 | a join starts with the first character of its first part |
| PosixPath.RenderIdempotent | src/tidewave/django/templates.py:55-63 | normalising a path twice is the same as once |
| Text.StripLeft | src/tidewave/tools/base.py:27 | lstrip removes a maximal prefix of the given characters |
| Text.StripRight | src/tidewave/tools/base.py:27 | rstrip removes a maximal suffix of the given characters |
| Text.StripCharsSegment | src/tidewave/django/templates.py:35 | strip keeps a contiguous segment and removes only stripped characters on each side |
| Text.StripRightTail | src/tidewave/django/templates.py:35 | right-stripping a suffix keeps a segment of the whole string |
| Text.StripCharsEnds | src/tidewave/tools/get_logs.py:72 | a stripped string is empty or starts and ends with a kept character |
| Text.StripCharsIdempotent | src/tidewave/mcp_handler.py:249 | stripping twice is stripping once |
| Text.StripCharsNoop | src/tidewave/mcp_handler.py:249 | a string with kept characters at both ends is unchanged by strip |
| Text.StripCharsKeepsAbsent | src/tidewave/tools/base.py:27-28 | strip never introduces a character |
| Text.EndsWithIff | src/tidewave/middleware.py:143 | endswith(p) holds iff the string is something followed by p |
| Text.IndexOf | src/tidewave/tools/base.py:27 | the index found is the first occurrence of the character |
| Text.Split | src/tidewave/tools/get_src_location.py:81 | split gives at least one part and no part holds the separator |
| Text.SplitJoin | src/tidewave/sqlalchemy/models.py:43 | splitting a join of separator-free parts gives the parts back |
| Text.JoinSplit | src/tidewave/tools/get_src_location.py:81-94 | joining the split of a string gives the string back |
| Text.SplitFirst | src/tidewave/tools/base.py:27-28 | the first split part is everything before the first separator |
| Text.Concat | src/tidewave/tools/get_logs.py:72 | joining no parts gives "" |
| Text.Lower | src/tidewave/middleware.py:111-130 | lower-casing maps each character |
| Text.LowerOfLower | src/tidewave/middleware.py:130 | a string without capitals is its own lower case |
| Text.LowerIdempotent | src/tidewave/middleware.py:111-130 | lower-casing twice is lower-casing once |
| Text.Upper | src/tidewave/middleware.py:64 | upper-casing maps each character |
| Text.Digit | src/tidewave/middleware.py:181 | a digit value renders as a digit character |
| Text.Decimal | src/tidewave/middleware.py:181 | str(n) is a non-empty run of digits |
| Text.DecimalRoundTrip | src/tidewave/middleware.py:181 | parsing str(n) gives back n |
| Text.DecimalLength | src/tidewave/middleware.py:153 | an octet renders with one, two or three digits by its size |
| Text.IntToString | src/tidewave/django/tools/models.py:46 | str(i) of any integer is non-empty |
| Text.Utf8Char | src/tidewave/middleware.py:177 | a character encodes to one to four bytes, one exactly for ASCII |
| Text.Utf8Length | src/tidewave/mcp_handler.py:272-278 | the UTF-8 encoding is at least as long as the text, and equally long iff the text is ASCII |
| Text.LexTrichotomy | src/tidewave/mcp_handler.py:166 | string < is a strict total order |
| Text.LexTransitive | src/tidewave/mcp_handler.py:166 | string < is transitive |

## Left out

- I/O and collaborators are parameters or are absent:
  - WSGI `start_response` is replaced by the returned response value;
  - logging is not modelled;
  - the log file is a sequence of lines;
  - the database connection, and its commit in `src/tidewave/sqlalchemy/sql.py`, are an opaque `execute` or `run` function.
- JSON parsing and serialising are parameters (`loads`, `dumps`). Floats are not among the JSON values.
- Character case: only ASCII letters are case-mapped; Python's full Unicode `lower`/`upper` is not modelled.
- Pydantic is not modelled:
  - each parameter's coercion is an opaque function supplied with its type hint;
  - its property schemas are opaque maps;
  - the wording of its validation messages is approximated by a list of field errors.
- `ToolBase.Tool` stores no description. The description is recomputed from the function whenever it is needed, which gives the same value.
- `ToolBase.GenerateSchema` states only that it computes `SchemaOf`. What that function means is stated by `SchemaOfSpec` and the lemmas beside it.
- ValidateAndCall: the callee named in the `**` TypeError for arguments that are not a mapping is taken to be `tidewave.tools.base.<name>_validator()`. That is the module and qualified name pydantic's `create_model` records for the class it builds in `validate_and_call`; other Python or pydantic versions word this prefix differently, and the model does not follow them.
- SecurityError: `urlparse` raises ValueError on an Origin whose brackets do not balance, such as `http://[::1`. Nothing in `_check_security` catches it, so the request fails with an exception. The model's `hostnameOf` can only return a hostname or None, so this raise is not modelled.
- McpHandler.CallTool: the `except Exception` branch of `_handle_call_tool` (src/tidewave/mcp_handler.py:231-242), which answers "Tool execution failed: …", is not modelled. The only calls inside its `try` are a lookup of a name already checked to be present and `validate_and_call`, which catches every `Exception` itself, so the branch cannot be reached.
- CleanTemplatePath: when `settings.BASE_DIR` exists but is None, `Path(None)` raises TypeError, which `clean_template_path` does not catch. The model treats such a BASE_DIR as absent and returns the normalised path.
- SqlalchemyModels.GetModels: states the listing only up to the order of models with equal names. The list it sorts comes from iterating a set (src/tidewave/sqlalchemy/models.py:61), whose order Python leaves unspecified, so the stable sort has no fixed input order to keep.
- `SourceLocation`:
  - `inspect.getsourcefile` and `getsourcelines` are a table in the runtime parameter;
  - `importlib`, `getattr`, `sys.modules` and builtins are tables there too;
  - the `isinstance(reference, str)` check is implied by the type.
- `tidewave.tools.source` is not part of this model. The location function that `src/tidewave/django/models.py` and `src/tidewave/sqlalchemy/models.py` call is a parameter.
- `modify_csp` is not part of this model. The Flask rewrite takes it as an uninterpreted function, so the CSP directive changes are not stated.
- `PosixPath`:
  - `Path` is modelled as `PurePosixPath` on strings;
  - the special meaning of a leading "//" is not modelled;
  - `os.getcwd()`, `settings.BASE_DIR` and `os.path.relpath` are parameters.
- The Jinja AST is modelled on values:
  - `_wrap_blocks_with_annotations` overwrites `node.body` in place, and the model returns new nodes instead, so aliasing of shared nodes is not captured;
  - line numbers (`set_lineno`) are not modelled;
  - the parser stream is replaced by the parsed body and filename.
- Django's `debug_render` takes the output of the original render as a parameter. The monkey-patching that installs it is not modelled.
- The router serves only the routes its code shows: `/tidewave/empty` and `/tidewave/mcp`. The shell, config and home routes are not part of it.
- An explicitly empty `allowed_origins` list refuses every Origin, as the code does. Only a missing key falls back to the local defaults.
- `src/tidewave/fastapi/middleware.py` is not modelled: it is an asynchronous adapter whose header rewrite repeats the Flask rule.
- `src/tidewave/tools/project_eval.py` is not modelled: it is process supervision around `eval`/`exec`.
- `src/tidewave/tools/math_tools.py` is not modelled: it is floating-point arithmetic.
- The framework wiring modules are not modelled.
