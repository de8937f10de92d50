/**
 * The HTTP transport as a scripted oracle. Requests are recorded in a log
 * and answered from a fixed script of replies; once the script is exhausted
 * every request goes unanswered. Endpoints and bodies are kept structured:
 * `Url` renders an endpoint the way the client concatenates it, and JSON
 * encoding of a body is left abstract.
 */
module Transport {
  import opened Base
  import opened Php
  import opened PhpArray
  import ContactEntity
  import InvoiceEntity
  import InvoiceLineEntity

  const ApiVersion := "v1"
  const BaseUrl := "https://api.dinero.dk/" + ApiVersion
  const OAuthUrl := "https://authz.dinero.dk/dineroapi/oauth/token"

  /** The organisation-scoped resources the client addresses. */
  datatype Resource =
    | Contacts
    | ContactSearch(queryFilter: string, fields: string)
    | Invoices
    | Book(invoiceGuid: string)
    | Email(invoiceGuid: string)

  datatype Endpoint = TokenEndpoint | Api(org: string, resource: Resource)

  /** The path under the base URL, as the client builds it with `sprintf` and `.`. */
  function Path(org: string, res: Resource): string
  {
    match res
    case Contacts => "/" + org + "/contacts"
    case ContactSearch(filter, fields) => "/" + org + "/contacts" + "?queryFilter=" + filter + "&fields=" + fields
    case Invoices => "/" + org + "/invoices"
    case Book(guid) => "/" + org + "/invoices" + "/" + guid + "/book"
    case Email(guid) => "/" + org + "/invoices/" + guid + "/email"
  }

  function Url(e: Endpoint): string
  {
    match e
    case TokenEndpoint => OAuthUrl
    case Api(org, res) => BaseUrl + Path(org, res)
  }

  /** A request body: a literal string, or a value handed to `json_encode`. */
  datatype Payload =
    | Text(text: string)
    | ContactJson(profile: ContactEntity.Profile)
    | InvoiceJson(details: InvoiceEntity.Details, lines: seq<InvoiceLineEntity.InvoiceLine>)
    | ArrayJson(entries: Arr<Value>)

  datatype Request = Request(endpoint: Endpoint, verb: string, body: Payload, headers: Arr<string>)

  /**
   * A decoded JSON reply: its scalar members, and the `Collection` member
   * when the reply has one (a list of objects).
   */
  datatype Body = Body(fields: map<string, Value>, collection: Option<seq<map<string, Value>>>)

  /** `$body[$k]`: null when the member is absent. */
  function Field(b: Body, k: string): Value
  {
    if k in b.fields then b.fields[k] else Null
  }

  /**
   * A reply with a success status, a reply with an error status (raised by
   * the transport), or no reply at all (a connection failure).
   */
  datatype Reply = Answer(body: Body) | HttpError(status: int) | NoResponse

  /** The oracle: the replies still to be given, and every request made so far. */
  datatype Net = Net(replies: seq<Reply>, log: seq<Request>)

  /** The reply the next request will get. */
  function NextReply(net: Net): Reply
  {
    if |net.replies| > 0 then net.replies[0] else NoResponse
  }

  /** Sends one request: it is logged, and the next scripted reply is consumed. */
  function Transmit(net: Net, req: Request): (r: (Reply, Net))
    ensures r.0 == NextReply(net)
    ensures r.1.log == net.log + [req]
    ensures r.1.replies == if |net.replies| > 0 then net.replies[1..] else []
  {
    if |net.replies| > 0 then (net.replies[0], Net(net.replies[1..], net.log + [req]))
    else (NoResponse, Net([], net.log + [req]))
  }

  /** `later` is `earlier` after zero or more further requests. */
  predicate Extends(earlier: Net, later: Net)
  {
    earlier.log <= later.log
  }

  /** The requests made between two states of the oracle. */
  function Sent(earlier: Net, later: Net): seq<Request>
    requires Extends(earlier, later)
  {
    later.log[|earlier.log|..]
  }

  lemma SentSplit(a: Net, b: Net, c: Net)
    requires Extends(a, b) && Extends(b, c)
    ensures Extends(a, c)
    ensures Sent(a, c) == Sent(a, b) + Sent(b, c)
  {
  }

  /** How many of `reqs` satisfy `p`. */
  function Count(reqs: seq<Request>, p: Request -> bool): nat
    decreases |reqs|
  {
    if |reqs| == 0 then 0
    else Count(reqs[..|reqs| - 1], p) + (if p(reqs[|reqs| - 1]) then 1 else 0)
  }

  lemma {:induction false} CountAppend(a: seq<Request>, b: seq<Request>, p: Request -> bool)
    ensures Count(a + b, p) == Count(a, p) + Count(b, p)
    decreases |b|
  {
    if |b| > 0 {
      CountAppend(a, b[..|b| - 1], p);
      assert (a + b)[..|a + b| - 1] == a + b[..|b| - 1];
      assert (a + b)[|a + b| - 1] == b[|b| - 1];
    } else {
      assert a + b == a;
    }
  }

  lemma {:induction false} CountNone(reqs: seq<Request>, p: Request -> bool)
    requires forall i | 0 <= i < |reqs| :: !p(reqs[i])
    ensures Count(reqs, p) == 0
    decreases |reqs|
  {
    if |reqs| > 0 {
      CountNone(reqs[..|reqs| - 1], p);
    }
  }

  /** Counting over consecutive stretches of the log adds up. */
  lemma CountSplit(a: Net, b: Net, c: Net, p: Request -> bool)
    requires Extends(a, b) && Extends(b, c)
    ensures Extends(a, c)
    ensures Count(Sent(a, c), p) == Count(Sent(a, b), p) + Count(Sent(b, c), p)
  {
    SentSplit(a, b, c);
    CountAppend(Sent(a, b), Sent(b, c), p);
  }

  predicate IsInvoicePost(q: Request)
  {
    q.endpoint.Api? && q.endpoint.resource.Invoices? && q.verb == "post"
  }

  predicate IsBookPost(q: Request)
  {
    q.endpoint.Api? && q.endpoint.resource.Book? && q.verb == "post"
  }

  /** A token exchange, or a request to the organisation's contacts. */
  predicate IsContactTraffic(q: Request)
  {
    q.endpoint.TokenEndpoint? || q.endpoint.resource.Contacts? || q.endpoint.resource.ContactSearch?
  }
}
