/** The response record every check reads: status, a header map whose keys
    the HTTP client has already lowercased, the parsed body, and the
    `config.metadata.responseTime` value a caller may attach (this
    repository's own client never sets it). */
module Http {
  import opened Wrappers
  import Json

  datatype Response = Response(
    status: int,
    headers: map<string, string>,
    data: Json.Value,
    metadataResponseTime: Option<int>)

  /** `response.headers[name]`, None standing for `undefined`. */
  function Header(r: Response, name: string): (h: Option<string>)
    ensures h.Some? <==> name in r.headers
    ensures h.Some? ==> h.value == r.headers[name]
  {
    if name in r.headers then Some(r.headers[name]) else None
  }

  /** `${h}` for a header value that may be `undefined`. */
  function ShowHeader(h: Option<string>): string
  {
    match h
    case None => "undefined"
    case Some(s) => s
  }
}
