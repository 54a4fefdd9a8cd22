/**
  `Middleware` (src/tidewave/middleware.py): the WSGI layer in front of the
  host application. Paths under "/tidewave" pass a security gate (local
  client address, allowed Origin host); "/tidewave/empty" answers an empty
  page, "/tidewave/mcp" forwards POST requests to the MCP handler, and
  everything else goes to the wrapped application.

  Parsing an address (`ipaddress.ip_address`) and extracting a host from an
  Origin header (`urlparse(...).hostname`) are parameters.
*/
module Middleware {
  import opened Wrappers
  import opened JsonValue
  import Text
  import Http
  import McpHandler

  /** The options the middleware reads from its config dict. A missing
      "allowed_origins" key is None; a present one may be an empty list. */
  datatype Config = Config(useScriptName: bool, allowRemoteAccess: bool, allowedOrigins: Option<seq<string>>)

  /** The parts of the WSGI environ the middleware and the handler read.
      A missing key is the empty string (the code's own default), except for
      CONTENT_LENGTH, which is described at `McpHandler.Dispatch`. */
  datatype Environ = Environ(
    pathInfo: string,
    scriptName: string,
    requestMethod: string,
    remoteAddr: string,
    origin: string,
    contentLength: Option<int>,
    input: seq<Text.byte>)

  // ---------------------------------------------------------------------
  // Client address

  type Group = x: int | 0 <= x < 0x1_0000

  /** A parsed address: four octets, or eight 16-bit groups. */
  datatype IpAddress = V4(a: Text.byte, b: Text.byte, c: Text.byte, d: Text.byte) | V6(groups: seq<Group>)

  /** `str()` of an IPv4 address: dotted decimal. */
  function V4String(a: Text.byte, b: Text.byte, c: Text.byte, d: Text.byte): string
  {
    Text.Decimal(a) + "." + Text.Decimal(b) + "." + Text.Decimal(c) + "." + Text.Decimal(d)
  }

  /** `ipv4_mapped`: the IPv4 address inside ::ffff:a.b.c.d, if any. */
  function Ipv4Mapped(groups: seq<Group>): Option<IpAddress>
  {
    if |groups| == 8 && groups[..5] == [0, 0, 0, 0, 0] && groups[5] == 0xffff then
      Some(V4(groups[6] / 256, groups[6] % 256, groups[7] / 256, groups[7] % 256))
    else None
  }

  /** `is_loopback` of an IPv6 address: exactly ::1. */
  predicate V6Loopback(groups: seq<Group>)
  {
    groups == [0, 0, 0, 0, 0, 0, 0, 1]
  }

  predicate V4Starts127(ip: IpAddress)
  {
    ip.V4? && Text.StartsWith(V4String(ip.a, ip.b, ip.c, ip.d), "127.")
  }

  /** `_is_local_ip`: None stands for the ValueError of an unparsable address.
      Only a parsed address can be local, and an IPv4 one is local exactly
      when its first octet is 127. */
  predicate IsLocalIp(ip: Option<IpAddress>)
    ensures IsLocalIp(ip) ==> ip.Some?
    ensures ip.Some? && ip.value.V4? ==> (IsLocalIp(ip) <==> ip.value.a == 127)
  {
    match ip
    case None => false
    case Some(V4(a, b, c, d)) => V4Starts127Iff(a, b, c, d); V4Starts127(ip.value)
    case Some(V6(groups)) =>
      V6Loopback(groups)
      || (Ipv4Mapped(groups).Some? && V4Starts127(Ipv4Mapped(groups).value))
  }

  /** The dotted form starts with "127." exactly when the first octet is 127. */
  lemma Starts127Iff(a: Text.byte, rest: string)
    ensures Text.StartsWith(Text.Decimal(a) + "." + rest, "127.") <==> a == 127
  {
    var d := Text.Decimal(a);
    if a == 127 {
      Decimal127();
      assert (d + "." + rest)[..4] == "127.";
    }
    if Text.StartsWith(d + "." + rest, "127.") {
      DigitsBeforeDot(d, rest);
      Text.DecimalRoundTrip(a);
      Decimal127();
    }
  }

  /** Digits followed by a dot start with "127." only when the digits are "127". */
  lemma DigitsBeforeDot(d: string, rest: string)
    requires forall k :: 0 <= k < |d| ==> Text.IsDigit(d[k])
    requires Text.StartsWith(d + "." + rest, "127.")
    ensures d == "127"
  {
    var s := d + "." + rest;
    assert s[..4] == "127.";
    assert s[0] == '1' && s[1] == '2' && s[2] == '7' && s[3] == '.';
    assert s[|d|] == '.';
    assert forall k :: 0 <= k < |d| ==> s[k] == d[k];
    assert d == s[..3];
  }

  lemma Decimal127()
    ensures Text.Decimal(127) == "127"
    ensures Text.DecimalValue("127") == 127
  {
    assert Text.Decimal(1) == "1";
    assert Text.Decimal(12) == "12";
    assert "127"[..2] == "12" && "12"[..1] == "1" && "1"[..0] == "";
  }

  /** The first octet decides whether an IPv4 address is loopback. */
  lemma V4Starts127Iff(a: Text.byte, b: Text.byte, c: Text.byte, d: Text.byte)
    ensures V4Starts127(V4(a, b, c, d)) <==> a == 127
  {
    var rest := Text.Decimal(b) + "." + Text.Decimal(c) + "." + Text.Decimal(d);
    assert V4String(a, b, c, d) == Text.Decimal(a) + "." + rest;
    Starts127Iff(a, rest);
  }

  /** A client is local exactly when it is 127.x.x.x, ::1, or
      ::ffff:127.x.x.x; an address that does not parse is not local. */
  lemma IsLocalIpSpec(ip: Option<IpAddress>)
    ensures ip.None? ==> !IsLocalIp(ip)
    ensures ip.Some? && ip.value.V4? ==> (IsLocalIp(ip) <==> ip.value.a == 127)
    ensures ip.Some? && ip.value.V6? ==>
      (IsLocalIp(ip) <==>
        V6Loopback(ip.value.groups)
        || (Ipv4Mapped(ip.value.groups).Some? && ip.value.groups[6] / 256 == 127))
  {
    match ip
    case None =>
    case Some(V4(a, b, c, d)) =>
      V4Starts127Iff(a, b, c, d);
    case Some(V6(groups)) =>
      match Ipv4Mapped(groups)
      case None =>
      case Some(m) =>
        V4Starts127Iff(m.a, m.b, m.c, m.d);
  }

  // ---------------------------------------------------------------------
  // Origin host

  /** The allowed origins when the config has no "allowed_origins" key. */
  const DefaultOrigins: seq<string> := [".localhost", "127.0.0.1", "::1"]

  /** One pattern of `_validate_allowed_origin`, compared in lower case:
      "*" allows any host, a plain pattern the same host, and ".d" the
      domain d and every subdomain of it. */
  predicate MatchesPattern(pattern: string, host: string)
  {
    var p := Text.Lower(pattern);
    p == "*"
    || host == p
    || (Text.StartsWith(p, ".") && (host == p[1..] || Text.EndsWith(host, "." + p[1..])))
  }

  /** Whether some pattern of a non-empty list allows the host. The length
      test only short-circuits: the host is allowed exactly when one of the
      patterns allows it, so an empty list allows nothing. */
  predicate OriginAllowed(patterns: seq<string>, host: string)
    ensures OriginAllowed(patterns, host) <==> exists p :: p in patterns && MatchesPattern(p, host)
    ensures |patterns| == 0 ==> !OriginAllowed(patterns, host)
  {
    |patterns| > 0 && exists i :: 0 <= i < |patterns| && MatchesPattern(patterns[i], host)
  }

  /** `_validate_allowed_origin`: tries the patterns in order and stops at the
      first that allows the host. An empty list allows nothing. */
  method ValidateAllowedOrigin(config: Config, host: string) returns (ok: bool)
    ensures ok == OriginAllowed(config.allowedOrigins.GetOr(DefaultOrigins), host)
  {
    var patterns := config.allowedOrigins.GetOr(DefaultOrigins);
    if |patterns| == 0 {
      return false;
    }
    for i := 0 to |patterns|
      invariant forall j :: 0 <= j < i ==> !MatchesPattern(patterns[j], host)
    {
      var allowed := Text.Lower(patterns[i]);
      if allowed == "*" {
        return true;
      }
      if host == allowed {
        return true;
      }
      if Text.StartsWith(allowed, ".") {
        var domain := allowed[1..];
        if host == domain || Text.EndsWith(host, "." + domain) {
          return true;
        }
      }
    }
    return false;
  }

  /** A ".d" pattern allows the pattern itself, d, and exactly the hosts
      that end in "." + d. */
  lemma DotPattern(d: string, host: string)
    requires forall k :: 0 <= k < |d| ==> !('A' <= d[k] <= 'Z')
    ensures MatchesPattern("." + d, host) <==> host == "." + d || host == d || Text.EndsWith(host, "." + d)
  {
    Text.LowerOfLower("." + d);
    assert ("." + d)[1..] == d;
    assert Text.StartsWith("." + d, ".");
  }

  /** Every subdomain x + "." + d of d is allowed by the pattern ".d". */
  lemma DotPatternSubdomain(d: string, x: string)
    requires forall k :: 0 <= k < |d| ==> !('A' <= d[k] <= 'Z')
    ensures MatchesPattern("." + d, x + "." + d)
  {
    DotPattern(d, x + "." + d);
    Text.EndsWithIff(x + "." + d, "." + d);
    assert x + "." + d == x + ("." + d);
  }

  /** Patterns are compared without regard to ASCII case. */
  lemma PatternCaseInsensitive(pattern: string, host: string)
    ensures MatchesPattern(Text.Lower(pattern), host) == MatchesPattern(pattern, host)
  {
    Text.LowerIdempotent(pattern);
  }

  /** A "*" anywhere in the list allows every host. */
  lemma WildcardAllowsAll(patterns: seq<string>, i: nat, host: string)
    requires i < |patterns| && patterns[i] == "*"
    ensures OriginAllowed(patterns, host)
  {
    assert Text.Lower("*") == "*";
    assert MatchesPattern(patterns[i], host);
  }

  /** An explicitly empty list refuses every host. */
  lemma EmptyListRefusesAll(host: string)
    ensures !OriginAllowed([], host)
  {
  }

  /** Without configuration the local development hosts are allowed:
      localhost and its subdomains, 127.0.0.1 and ::1 — and no other host. */
  lemma DefaultOriginsSpec(host: string)
    ensures OriginAllowed(DefaultOrigins, host) <==>
      host == ".localhost" || host == "localhost" || Text.EndsWith(host, ".localhost")
      || host == "127.0.0.1" || host == "::1"
  {
    Text.LowerOfLower(".localhost");
    Text.LowerOfLower("127.0.0.1");
    Text.LowerOfLower("::1");
    assert ".localhost"[1..] == "localhost";
    assert !Text.StartsWith("127.0.0.1", ".") && !Text.StartsWith("::1", ".");
    assert MatchesPattern(DefaultOrigins[0], host) <==>
      host == ".localhost" || host == "localhost" || Text.EndsWith(host, ".localhost");
    assert MatchesPattern(DefaultOrigins[1], host) <==> host == "127.0.0.1";
    assert MatchesPattern(DefaultOrigins[2], host) <==> host == "::1";
  }

  // ---------------------------------------------------------------------
  // The security gate

  const SecurityReasons: string := "For security reasons, Tidewave "
  const RemoteDeniedMessage: string :=
    SecurityReasons + "does not accept remote connections by default.\n\n"
    + "If you really want to allow remote connections, configure the Tidewave with the `allow_remote_access: True` option."
  const AllowedHostsOnly: string := SecurityReasons + "only accepts requests from allowed hosts.\n\n"
  const MalformedOrigin: string := "The origin header appears to be malformed: "
  const AllowHostPrefix: string := "If you want to allow requests from '"
  const AllowHostMiddle: string := "', configure Tidewave with the `allowed_origins: ['"
  const AllowHostSuffix: string := "']` option."

  function MalformedOriginMessage(origin: string): string
  {
    AllowedHostsOnly + MalformedOrigin + origin
  }

  function OriginDeniedMessage(host: string): string
  {
    AllowedHostsOnly + AllowHostPrefix + host + AllowHostMiddle + host + AllowHostSuffix
  }

  /** `_check_security` as a value: the client address is checked first,
      then the Origin header when it is present and non-empty. A remote
      client is refused for its address whatever its Origin says, and a
      local one with no Origin is never refused. */
  function SecurityError(config: Config, env: Environ,
                         parseIp: string -> Option<IpAddress>, hostnameOf: string -> Option<string>): (r: Option<string>)
    ensures !IsLocalIp(parseIp(env.remoteAddr)) && !config.allowRemoteAccess ==> r == Some(RemoteDeniedMessage)
    ensures (IsLocalIp(parseIp(env.remoteAddr)) || config.allowRemoteAccess) && env.origin == "" ==> r.None?
    ensures r.Some? ==> r.value == RemoteDeniedMessage || Text.StartsWith(r.value, AllowedHostsOnly)
  {
    if !IsLocalIp(parseIp(env.remoteAddr)) && !config.allowRemoteAccess then Some(RemoteDeniedMessage)
    else if env.origin != "" then
      match hostnameOf(env.origin)
      case None => Some(MalformedOriginMessage(env.origin))
      case Some(hostname) =>
        var host := Text.Lower(hostname);
        if !OriginAllowed(config.allowedOrigins.GetOr(DefaultOrigins), host) then Some(OriginDeniedMessage(host))
        else None
    else None
  }

  /** Every refusal carries a message of its own. */
  lemma SecurityMessagesNonEmpty(config: Config, env: Environ,
                                 parseIp: string -> Option<IpAddress>, hostnameOf: string -> Option<string>)
    ensures SecurityError(config, env, parseIp, hostnameOf).Some? ==> SecurityError(config, env, parseIp, hostnameOf).value != ""
  {
  }

  /** `_check_security`. */
  method CheckSecurity(config: Config, env: Environ,
                       parseIp: string -> Option<IpAddress>, hostnameOf: string -> Option<string>)
    returns (error: Option<string>)
    ensures error == SecurityError(config, env, parseIp, hostnameOf)
  {
    if !IsLocalIp(parseIp(env.remoteAddr)) && !config.allowRemoteAccess {
      return Some(RemoteDeniedMessage);
    }
    if env.origin != "" {
      var hostname := hostnameOf(env.origin);
      if hostname.None? {
        return Some(MalformedOriginMessage(env.origin));
      }
      var host := Text.Lower(hostname.value);
      var ok := ValidateAllowedOrigin(config, host);
      if !ok {
        return Some(OriginDeniedMessage(host));
      }
    }
    return None;
  }

  /** A request passes the gate exactly when its client is local (or remote
      access is allowed) and it carries either no Origin or one whose host
      is allowed. */
  lemma SecurityGate(config: Config, env: Environ,
                     parseIp: string -> Option<IpAddress>, hostnameOf: string -> Option<string>)
    ensures SecurityError(config, env, parseIp, hostnameOf).None? <==>
      (IsLocalIp(parseIp(env.remoteAddr)) || config.allowRemoteAccess)
      && (env.origin == ""
          || (hostnameOf(env.origin).Some?
              && OriginAllowed(config.allowedOrigins.GetOr(DefaultOrigins), Text.Lower(hostnameOf(env.origin).value))))
  {
  }

  // ---------------------------------------------------------------------
  // Routing

  /** `_send_error_response`: the message (or the status phrase), as UTF-8
      plain text with its byte length. */
  function ErrorResponse(status: int, phrase: string, message: Option<string>): Http.HttpResponse
  {
    var text := if message.Some? && message.value != "" then message.value else phrase;
    var body := Text.Utf8(text);
    Http.HttpResponse(status, phrase,
      [("Content-Type", "text/plain; charset=utf-8"), ("Content-Length", Text.Decimal(|body|))],
      body)
  }

  /** The declared length of an error response is the length of its body. */
  lemma ErrorResponseLength(status: int, phrase: string, message: Option<string>)
    ensures var r := ErrorResponse(status, phrase, message);
      Http.HeaderValue(r.headers, "Content-Length") == Text.Decimal(|r.body|)
      && Text.DecimalValue(Http.HeaderValue(r.headers, "Content-Length")) == |r.body|
  {
    Text.DecimalRoundTrip(|ErrorResponse(status, phrase, message).body|);
  }

  /** `_handle_empty_route`: 200 with an empty HTML page whose declared
      length is that of its body. */
  function EmptyRoute(): (r: Http.HttpResponse)
    ensures r.status == 200 && r.body == []
    ensures Http.HeaderValue(r.headers, "Content-Type") == "text/html"
    ensures Http.HeaderValue(r.headers, "Content-Length") == Text.Decimal(|r.body|)
  {
    Http.HttpResponse(200, "OK", [("Content-Type", "text/html"), ("Content-Length", "0")], [])
  }

  /** What the middleware does with a request: answer it, or call the
      wrapped application. */
  datatype Outcome = Respond(response: Http.HttpResponse) | PassThrough

  /** The path the middleware routes on: PATH_INFO, behind SCRIPT_NAME when
      the config asks for it. */
  function FullPath(config: Config, env: Environ): (path: string)
    ensures Text.EndsWith(path, env.pathInfo)
    ensures config.useScriptName ==> Text.StartsWith(path, env.scriptName)
    ensures !config.useScriptName ==> path == env.pathInfo
  {
    if config.useScriptName then env.scriptName + env.pathInfo else env.pathInfo
  }

  /** `Middleware.__call__`. The MCP handler is represented by its registry
      and the JSON codec it uses. Paths outside "/tidewave" always reach the
      application; under it, a request that fails the gate is refused with
      403 whatever its route. */
  function Call(config: Config, env: Environ,
                parseIp: string -> Option<IpAddress>, hostnameOf: string -> Option<string>,
                reg: McpHandler.Registry, loads: seq<Text.byte> -> Option<Json>, dumps: Json -> string): (out: Outcome)
    ensures !Text.StartsWith(FullPath(config, env), "/tidewave") ==> out == PassThrough
    ensures Text.StartsWith(FullPath(config, env), "/tidewave") && SecurityError(config, env, parseIp, hostnameOf).Some? ==>
      out.Respond? && out.response.status == 403
  {
    assert "/tidewave/empty"[..9] == "/tidewave" && "/tidewave/mcp"[..9] == "/tidewave";
    var path := FullPath(config, env);
    if Text.StartsWith(path, "/tidewave") && SecurityError(config, env, parseIp, hostnameOf).Some? then
      Respond(ErrorResponse(403, "Forbidden", SecurityError(config, env, parseIp, hostnameOf)))
    else if path == "/tidewave/empty" then
      Respond(EmptyRoute())
    else if path == "/tidewave/mcp" then
      if Text.Upper(env.requestMethod) == "POST" then
        Respond(McpHandler.HandleRequest(reg, env.contentLength, env.input, loads, dumps))
      else
        Respond(ErrorResponse(405, "Method Not Allowed", None))
    else PassThrough
  }

  /** The middleware answers a request itself exactly when the path is one of
      its two routes, or is under "/tidewave" and fails the security gate;
      everything else reaches the application untouched. */
  lemma CallAnswers(config: Config, env: Environ,
                    parseIp: string -> Option<IpAddress>, hostnameOf: string -> Option<string>,
                    reg: McpHandler.Registry, loads: seq<Text.byte> -> Option<Json>, dumps: Json -> string)
    ensures var path := FullPath(config, env);
      Call(config, env, parseIp, hostnameOf, reg, loads, dumps).Respond? <==>
        path == "/tidewave/empty" || path == "/tidewave/mcp"
        || (Text.StartsWith(path, "/tidewave") && SecurityError(config, env, parseIp, hostnameOf).Some?)
  {
  }

  /** A request for "/tidewave/empty" that passes the gate gets the empty
      page: 200, text/html, no body, and a Content-Length that parses back
      to the body's length. */
  lemma EmptyRouteServed(config: Config, env: Environ,
                         parseIp: string -> Option<IpAddress>, hostnameOf: string -> Option<string>,
                         reg: McpHandler.Registry, loads: seq<Text.byte> -> Option<Json>, dumps: Json -> string)
    requires FullPath(config, env) == "/tidewave/empty"
    requires SecurityError(config, env, parseIp, hostnameOf).None?
    ensures var out := Call(config, env, parseIp, hostnameOf, reg, loads, dumps);
      && out == Respond(EmptyRoute())
      && out.response.status == 200
      && Http.HeaderValue(out.response.headers, "Content-Type") == "text/html"
      && out.response.body == []
      && Text.DecimalValue(Http.HeaderValue(out.response.headers, "Content-Length")) == |out.response.body|
  {
    Text.DecimalRoundTrip(0);
  }

  /** No request reaches the MCP handler without passing the security gate
      and being a POST; a refused request gets 403 with the reason. */
  lemma McpBehindGate(config: Config, env: Environ,
                      parseIp: string -> Option<IpAddress>, hostnameOf: string -> Option<string>,
                      reg: McpHandler.Registry, loads: seq<Text.byte> -> Option<Json>, dumps: Json -> string)
    requires FullPath(config, env) == "/tidewave/mcp"
    ensures var out := Call(config, env, parseIp, hostnameOf, reg, loads, dumps);
      && out.Respond?
      && (SecurityError(config, env, parseIp, hostnameOf).None? && Text.Upper(env.requestMethod) == "POST" ==>
            out.response == McpHandler.HandleRequest(reg, env.contentLength, env.input, loads, dumps))
      && (SecurityError(config, env, parseIp, hostnameOf).Some? ==>
            out.response.status == 403
            && out.response.body == Text.Utf8(SecurityError(config, env, parseIp, hostnameOf).value))
      && (SecurityError(config, env, parseIp, hostnameOf).None? && Text.Upper(env.requestMethod) != "POST" ==>
            out.response.status == 405 && out.response.body == Text.Utf8("Method Not Allowed"))
  {
    var err := SecurityError(config, env, parseIp, hostnameOf);
    if err.Some? {
      McpRefused(config, env, parseIp, hostnameOf, reg, loads, dumps);
    } else {
      McpAdmitted(config, env, parseIp, hostnameOf, reg, loads, dumps);
    }
  }

  lemma McpRefused(config: Config, env: Environ,
                   parseIp: string -> Option<IpAddress>, hostnameOf: string -> Option<string>,
                   reg: McpHandler.Registry, loads: seq<Text.byte> -> Option<Json>, dumps: Json -> string)
    requires FullPath(config, env) == "/tidewave/mcp" && SecurityError(config, env, parseIp, hostnameOf).Some?
    ensures Call(config, env, parseIp, hostnameOf, reg, loads, dumps) ==
      Respond(ErrorResponse(403, "Forbidden", SecurityError(config, env, parseIp, hostnameOf)))
    ensures SecurityError(config, env, parseIp, hostnameOf).value != ""
  {
    assert Text.StartsWith("/tidewave/mcp", "/tidewave");
    SecurityMessagesNonEmpty(config, env, parseIp, hostnameOf);
  }

  lemma McpAdmitted(config: Config, env: Environ,
                    parseIp: string -> Option<IpAddress>, hostnameOf: string -> Option<string>,
                    reg: McpHandler.Registry, loads: seq<Text.byte> -> Option<Json>, dumps: Json -> string)
    requires FullPath(config, env) == "/tidewave/mcp" && SecurityError(config, env, parseIp, hostnameOf).None?
    ensures Call(config, env, parseIp, hostnameOf, reg, loads, dumps) ==
      if Text.Upper(env.requestMethod) == "POST" then Respond(McpHandler.HandleRequest(reg, env.contentLength, env.input, loads, dumps))
      else Respond(ErrorResponse(405, "Method Not Allowed", None))
  {
  }
}
