/**
 * The HTTP probe (request): builds the configured request for a target and
 * port, sends it, and classifies what comes back. The network is an oracle.
 */
module Probe {
  import opened Wrappers
  import opened GoText
  import opened Patterns

  /** The probe descriptor read from the JSON request file. */
  datatype Request = Request(
    path: string,
    httpMethod: string,
    headers: map<string, string>,
    search: string,
    data: string)

  /** The request handed to the HTTP client; `body` is None for a GET. */
  datatype HttpRequest = HttpRequest(
    httpMethod: string,
    url: string,
    body: Option<string>,
    header: map<string, seq<string>>,
    insecureTls: bool)

  /** What the HTTP client reports: a transport error, or a status and body. */
  datatype Reply = Failed(reason: string) | Replied(statusCode: int, body: string)

  /**
   * The outside world: the TCP liveness check, whether http.NewRequest
   * accepts a URL, and the HTTP round trip (with its 5-second timeout).
   */
  datatype Network = Network(
    portOpen: (string, string) -> bool,
    urlParses: string -> bool,
    roundTrip: HttpRequest -> Reply)

  const WrongMethod: string := "[WRONG METHOD]"
  const ErrorConnect: string := "[ERROR CONNECT]"
  const NoResponse: string := "[NO RESPONSE] => "
  const WrongResponse: string := "[WRONG RESPONSE]"
  const Success: string := "[SUCCESS]"
  const NotDetected: string := "[NOT DETECTED]"

  // ---------------------------------------------------------------------------
  // Certificate checking

  /**
   * The check request performs before swapping in a transport that skips
   * certificate verification, as written: strings.Contains("https", target),
   * which asks whether the TARGET occurs inside the word "https".
   */
  predicate InsecureTransportAsWritten(target: string) {
    Contains("https", target)
  }

  lemma {:induction false} NoLongerOccurrence(s: string, sub: string)
    requires |sub| > |s|
    ensures !Contains(s, sub)
    decreases |s|
  {
    if s != [] {
      NoLongerOccurrence(s[1..], sub);
    }
  }

  /**
   * As written, no target longer than five characters -- so no
   * "https://host" target -- ever gets certificate verification switched
   * off, while the empty target does.
   */
  lemma AsWrittenNeverFiresForHttpsTargets(host: string)
    ensures !InsecureTransportAsWritten("https://" + host)
    ensures InsecureTransportAsWritten("")
  {
    NoLongerOccurrence("https", "https://" + host);
    assert HasPrefix("https", "");
  }

  /**
   * The evidently intended check, which request does not use: the target
   * itself mentions "https".
   */
  predicate InsecureTransport(target: string) {
    Contains(target, "https")
  }

  /** Every target that starts with the https scheme skips certificate verification. */
  lemma HttpsTargetsAreInsecure(host: string)
    ensures InsecureTransport("https://" + host)
  {
    var target := "https://" + host;
    assert target[..5] == "https";
  }

  // ---------------------------------------------------------------------------
  // Building the request

  /** `target:port` followed by the descriptor's path, as fmt.Sprintf("%s:%s%s") writes it. */
  function BaseUrl(target: string, port: string, path: string): string {
    target + ":" + port + path
  }

  /** The request the client is asked to send, or None for an unsupported method. */
  function Outgoing(target: string, port: string, req: Request): (out: Option<HttpRequest>)
    ensures out.None? <==> req.httpMethod != "POST" && req.httpMethod != "GET"
    ensures out.Some? ==> out.value.httpMethod == req.httpMethod && out.value.insecureTls == InsecureTransportAsWritten(target)
    ensures out.Some? ==> forall h :: h in req.headers <==> h in out.value.header
    ensures out.Some? ==> forall h :: h in req.headers ==> out.value.header[h] == [req.headers[h]]
    ensures req.httpMethod == "POST" ==>
      out.value.url == BaseUrl(target, port, req.path) && out.value.body == Some(req.data)
    ensures req.httpMethod == "GET" && req.data == "" ==>
      out.value.url == BaseUrl(target, port, req.path) && out.value.body.None?
    ensures req.httpMethod == "GET" && req.data != "" ==>
      out.value.url == BaseUrl(target, port, req.path) + "?" + req.data && out.value.body.None?
  {
    var header := map h | h in req.headers :: [req.headers[h]];
    var url := BaseUrl(target, port, req.path);
    if req.httpMethod == "POST" then
      Some(HttpRequest(req.httpMethod, url, Some(req.data), header, InsecureTransportAsWritten(target)))
    else if req.httpMethod == "GET" then
      var query := if |req.data| > 0 then "?" + req.data else "";
      Some(HttpRequest(req.httpMethod, url + query, None, header, InsecureTransportAsWritten(target)))
    else None
  }

  /** The outcome of a reply: transport error, non-200 status, or the pattern test. */
  function Classify(reply: Reply, search: string, engine: RegexEngine): (outcome: (string, bool))
    ensures outcome.1 <==> outcome.0 == Success
    ensures reply.Failed? ==> outcome.0 == NoResponse + reply.reason
    ensures reply.Replied? && reply.statusCode != 200 ==> outcome.0 == WrongResponse
    ensures reply.Replied? && reply.statusCode == 200 ==>
      (outcome.1 <==> SearchPatterns(engine, reply.body, search)) &&
      (outcome.0 == Success || outcome.0 == NotDetected)
  {
    match reply
    case Failed(reason) =>
      assert (NoResponse + reason)[1] != Success[1];
      (NoResponse + reason, false)
    case Replied(code, body) =>
      if code != 200 then (WrongResponse, false)
      else if SearchPatterns(engine, body, search) then (Success, true)
      else (NotDetected, false)
  }

  /** What request returns for a target and port. */
  function ProbeResult(target: string, port: string, req: Request, net: Network, engine: RegexEngine): (outcome: (string, bool))
    ensures outcome.1 <==> outcome.0 == Success
    ensures req.httpMethod != "POST" && req.httpMethod != "GET" ==> outcome == (WrongMethod, false)
    ensures Outgoing(target, port, req).Some? && !net.urlParses(Outgoing(target, port, req).value.url) ==>
      outcome == (ErrorConnect, false)
    ensures Outgoing(target, port, req).Some? && net.urlParses(Outgoing(target, port, req).value.url) ==>
      outcome == Classify(net.roundTrip(Outgoing(target, port, req).value), req.search, engine)
    ensures outcome.1 ==>
      var out := Outgoing(target, port, req).value;
      net.urlParses(out.url) && net.roundTrip(out).Replied? && net.roundTrip(out).statusCode == 200 &&
      SearchPatterns(engine, net.roundTrip(out).body, req.search)
  {
    match Outgoing(target, port, req)
    case None => (WrongMethod, false)
    case Some(out) =>
      if !net.urlParses(out.url) then (ErrorConnect, false)
      else Classify(net.roundTrip(out), req.search, engine)
  }

  /** An unsupported method fails the same way whatever the network does. */
  lemma WrongMethodSendsNothing(target: string, port: string, req: Request, net1: Network, net2: Network, engine: RegexEngine)
    requires req.httpMethod != "POST" && req.httpMethod != "GET"
    ensures ProbeResult(target, port, req, net1, engine) == ProbeResult(target, port, req, net2, engine)
  {
  }

  /**
   * As written, a probe of an `https://` target keeps certificate
   * verification on, and a probe of the empty target switches it off.
   */
  lemma HttpsProbeVerifiesCertificates(host: string, port: string, req: Request)
    requires req.httpMethod == "POST" || req.httpMethod == "GET"
    ensures !Outgoing("https://" + host, port, req).value.insecureTls
    ensures Outgoing("", port, req).value.insecureTls
  {
    AsWrittenNeverFiresForHttpsTargets(host);
  }

  // ---------------------------------------------------------------------------
  // The imperative request

  /** The header loop: Header.Add of every descriptor header onto an empty header. */
  method AddHeaders(headers: map<string, string>) returns (header: map<string, seq<string>>)
    ensures forall h :: h in headers <==> h in header
    ensures forall h :: h in headers ==> header[h] == [headers[h]]
  {
    header := map[];
    var pending := headers.Keys;
    while pending != {}
      invariant pending <= headers.Keys
      invariant forall h :: h in header <==> h in headers && h !in pending
      invariant forall h :: h in header ==> header[h] == [headers[h]]
      decreases pending
    {
      var h :| h in pending;
      // Each key is visited once, so Add starts a fresh one-value list.
      header := header[h := [headers[h]]];
      pending := pending - {h};
    }
  }

  /** request: builds the URL step by step, adds the headers, sends, classifies. */
  method SendRequest(target: string, port: string, req: Request, net: Network, engine: RegexEngine)
    returns (answer: string, status: bool)
    ensures (answer, status) == ProbeResult(target, port, req, net, engine)
  {
    var insecure := InsecureTransportAsWritten(target);
    var url := target + ":" + port + req.path;
    var body: Option<string>;
    if req.httpMethod == "POST" {
      body := Some(req.data);
    } else if req.httpMethod == "GET" {
      if |req.data| > 0 {
        url := url + "?" + req.data;
      }
      body := None;
    } else {
      return WrongMethod, false;
    }
    if !net.urlParses(url) {
      return ErrorConnect, false;
    }
    var header := AddHeaders(req.headers);
    var sent := HttpRequest(req.httpMethod, url, body, header, insecure);
    assert sent == Outgoing(target, port, req).value;
    var reply := net.roundTrip(sent);
    if reply.Failed? {
      return NoResponse + reply.reason, false;
    } else if reply.statusCode != 200 {
      return WrongResponse, false;
    }
    if SearchPatterns(engine, reply.body, req.search) {
      return Success, true;
    }
    return NotDetected, false;
  }
}
