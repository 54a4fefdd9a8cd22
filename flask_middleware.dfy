/**
  The Flask WSGI middleware (src/tidewave/flask/middleware.py): responses
  to requests outside `/tidewave` get their headers rewritten so that the
  page can be embedded: `X-Frame-Options` is dropped and the
  `Content-Security-Policy` value goes through `modify_csp`, which is a
  parameter here. The wrapped application is given as the status and
  headers it passes to `start_response`.
*/
module FlaskMiddleware {
  import opened Wrappers
  import Text
  import opened PyDict

  const FrameOptions: string := "X-Frame-Options"
  const ContentSecurityPolicy: string := "Content-Security-Policy"

  /** The items `_process_response` returns: a dict's items, so one entry
      per name, and never an `X-Frame-Options` entry. */
  function ProcessedHeaders(headers: Pairs, modifyCsp: string -> string): (out: Pairs)
    ensures UniqueKeys(out)
    ensures Lookup(out, FrameOptions) == None
  {
    FromItemsSpec(headers);
    var d := FromItems(headers);
    RemoveSpec(d, FrameOptions);
    var d1 := if Lookup(d, FrameOptions).Some? then Remove(d, FrameOptions) else d;
    if Lookup(d1, ContentSecurityPolicy).Some? then
      PutSpec(d1, ContentSecurityPolicy, modifyCsp(Lookup(d1, ContentSecurityPolicy).value));
      Put(d1, ContentSecurityPolicy, modifyCsp(Lookup(d1, ContentSecurityPolicy).value))
    else d1
  }

  /** `_process_response`, on the mutable dict. */
  method ProcessResponse(headers: Pairs, modifyCsp: string -> string) returns (items: Pairs)
    ensures items == ProcessedHeaders(headers, modifyCsp)
  {
    FromItemsSpec(headers);
    var d := new Dict.FromPairs(headers);
    if d.Contains(FrameOptions) {
      d.Delete(FrameOptions);
    }
    if d.Contains(ContentSecurityPolicy) {
      var csp := d.Get(ContentSecurityPolicy);
      d.Set(ContentSecurityPolicy, modifyCsp(csp));
    }
    items := d.entries;
  }

  /** The rewritten headers: one entry per name, in order of first
      occurrence; no `X-Frame-Options`; the policy is `modify_csp` of the
      last policy given, or absent when none was; every other name keeps its
      last value. */
  lemma {:induction false} ProcessedHeadersSpec(headers: Pairs, modifyCsp: string -> string)
    ensures var out := ProcessedHeaders(headers, modifyCsp);
      && UniqueKeys(out)
      && Lookup(out, FrameOptions) == None
      && (LastValue(headers, ContentSecurityPolicy).None? ==> Lookup(out, ContentSecurityPolicy) == None)
      && (LastValue(headers, ContentSecurityPolicy).Some? ==>
            Lookup(out, ContentSecurityPolicy) == Some(modifyCsp(LastValue(headers, ContentSecurityPolicy).value)))
      && (forall k :: k != FrameOptions && k != ContentSecurityPolicy ==> Lookup(out, k) == LastValue(headers, k))
      && Keys(out) == Without(Dedup(Keys(headers)), FrameOptions)
  {
    FromItemsSpec(headers);
    var d := FromItems(headers);
    RemoveSpec(d, FrameOptions);
    var d1 := if Lookup(d, FrameOptions).Some? then Remove(d, FrameOptions) else d;
    if Lookup(d, FrameOptions).None? {
      LookupPresent(d, FrameOptions);
      WithoutAbsent(Keys(d), FrameOptions);
    }
    assert Keys(d1) == Without(Keys(d), FrameOptions);
    if Lookup(d1, ContentSecurityPolicy).Some? {
      PutSpec(d1, ContentSecurityPolicy, modifyCsp(Lookup(d1, ContentSecurityPolicy).value));
      LookupPresent(d1, ContentSecurityPolicy);
    }
  }

  /** What reaches the server's `start_response`. */
  datatype Started = Started(status: string, headers: Pairs)

  /** `Middleware.__call__`. A missing PATH_INFO makes `.startswith` raise
      AttributeError (the Failure). Requests under `/tidewave` go to the
      application with the server's own `start_response`; any other response
      has its headers processed and its status kept. Whatever the path, no
      response outside `/tidewave` can forbid framing. */
  function Call(pathInfo: Option<string>, appStatus: string, appHeaders: Pairs,
                modifyCsp: string -> string): (r: Result<Started, string>)
    ensures r.Success? ==> r.value.status == appStatus
    ensures pathInfo.Some? && !Text.StartsWith(pathInfo.value, "/tidewave") ==> r.Success? && Lookup(r.value.headers, FrameOptions) == None
  {
    if pathInfo.None? then Failure("AttributeError")
    else if Text.StartsWith(pathInfo.value, "/tidewave") then Success(Started(appStatus, appHeaders))
    else Success(Started(appStatus, ProcessedHeaders(appHeaders, modifyCsp)))
  }

  /** The status always passes through; only responses outside `/tidewave`
      lose their frame options, whatever headers the application sent. */
  lemma CallSpec(pathInfo: Option<string>, appStatus: string, appHeaders: Pairs,
                 modifyCsp: string -> string)
    ensures var r := Call(pathInfo, appStatus, appHeaders, modifyCsp);
      && (r.Failure? <==> pathInfo.None?)
      && (r.Success? ==> r.value.status == appStatus)
      && (r.Success? && Text.StartsWith(pathInfo.value, "/tidewave") ==> r.value.headers == appHeaders)
      && (r.Success? && !Text.StartsWith(pathInfo.value, "/tidewave") ==>
            UniqueKeys(r.value.headers) && Lookup(r.value.headers, FrameOptions) == None)
  {
    ProcessedHeadersSpec(appHeaders, modifyCsp);
  }
}
