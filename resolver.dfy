/** The stream resolver, `get_stream_url` in main.py: one HTTP request, then
    the first regex match in the response text, or no result. */
module Resolver {
  import opened Wrappers

  type Headers = map<string, string>

  /** The JSON object sent as the body of a POST. */
  type Body = map<string, string>

  /** The one request the resolver may issue. A GET carries no body. */
  datatype Request = Get(url: string, headers: Headers) | Post(url: string, body: Body, headers: Headers)

  /** The outcome of a request: the response text, or an exception raised by
      the HTTP client. */
  datatype Reply = Reply(text: string) | TransportError

  /** The network, seen as the reply each request would get. */
  type Transport = Request -> Reply

  /** `re.findall(pattern, text)`: the list of matches, or `None` when the
      pattern raises. */
  type FindAll = (string, string) -> Option<seq<string>>

  /** The request for a method name; only "GET" and "POST" are supported. */
  function RequestFor(url: string, verb: string, headers: Headers, body: Body): Option<Request> {
    if verb == "GET" then Some(Get(url, headers))
    else if verb == "POST" then Some(Post(url, body, headers))
    else None
  }

  /** `get_stream_url(url, pattern, verb, headers, body)`. */
  function GetStreamUrl(url: string, pattern: string, verb: string, headers: Headers, body: Body,
                        transport: Transport, findAll: FindAll): Option<string>
  {
    match RequestFor(url, verb, headers, body)
    case None => None
    case Some(request) =>
      match transport(request)
      case TransportError => None
      case Reply(text) =>
        match findAll(pattern, text)
        case None => None
        case Some(matches) => if |matches| > 0 then Some(matches[0]) else None
  }

  /** An unsupported verb yields no result whatever the network would
      answer: no request is made. */
  lemma UnsupportedMethod(url: string, pattern: string, verb: string, headers: Headers, body: Body,
                          transport: Transport, findAll: FindAll)
    requires verb != "GET" && verb != "POST"
    ensures GetStreamUrl(url, pattern, verb, headers, body, transport, findAll) == None
  {
  }

  /** For a supported verb the resolver sends that verb's request to
      `url` and yields the first match in the reply, or no result when the
      match list is empty, the pattern raises or the request fails. */
  lemma FirstMatch(url: string, pattern: string, verb: string, headers: Headers, body: Body,
                   transport: Transport, findAll: FindAll)
    requires verb == "GET" || verb == "POST"
    ensures var request := if verb == "GET" then Get(url, headers) else Post(url, body, headers);
            var reply := transport(request);
            GetStreamUrl(url, pattern, verb, headers, body, transport, findAll)
            == if reply.TransportError? then None
               else match findAll(pattern, reply.text)
                    case None => None
                    case Some(matches) => if matches == [] then None else Some(matches[0])
  {
  }

  /** A result is always a match the pattern found in the reply to the
      request for `url`. */
  lemma ResultIsAMatch(url: string, pattern: string, verb: string, headers: Headers, body: Body,
                       transport: Transport, findAll: FindAll)
    requires GetStreamUrl(url, pattern, verb, headers, body, transport, findAll).Some?
    ensures exists request :: RequestFor(url, verb, headers, body) == Some(request)
              && transport(request).Reply?
              && findAll(pattern, transport(request).text).Some?
              && GetStreamUrl(url, pattern, verb, headers, body, transport, findAll).value
                 in findAll(pattern, transport(request).text).value
  {
  }

  /** The call `main` makes: the default verb "GET", no headers, no body. */
  function DefaultStreamUrl(url: string, pattern: string, transport: Transport, findAll: FindAll): Option<string> {
    GetStreamUrl(url, pattern, "GET", map[], map[], transport, findAll)
  }

  /** The default call depends only on the reply to a plain GET of `url`. */
  lemma DefaultIsPlainGet(url: string, pattern: string, t1: Transport, t2: Transport, findAll: FindAll)
    requires t1(Get(url, map[])) == t2(Get(url, map[]))
    ensures DefaultStreamUrl(url, pattern, t1, findAll) == DefaultStreamUrl(url, pattern, t2, findAll)
  {
  }
}
