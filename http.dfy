/** The response a WSGI application hands to `start_response` and returns. */
module Http {
  import Text

  type Header = (string, string)

  /** Status code, reason phrase, headers in order, and the body bytes. */
  datatype HttpResponse = HttpResponse(status: int, reason: string, headers: seq<Header>, body: seq<Text.byte>)

  /** The value of the first header with the given name, if any. */
  function HeaderValue(headers: seq<Header>, name: string): (v: string)
  {
    if |headers| == 0 then ""
    else if headers[0].0 == name then headers[0].1
    else HeaderValue(headers[1..], name)
  }
}
