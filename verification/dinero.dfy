/**
 * The Dinero client: configuration checks, the access-token cache, the
 * authorised `send`, contact creation and search, find-or-create contact
 * resolution, invoice creation with optional booking, and invoice e-mail.
 *
 * Every operation takes the client's state, the transport oracle and the
 * environment, and returns the new state of both alongside its outcome; an
 * exception is an `Err` outcome, and whatever state changed before it was
 * raised (a refreshed token, requests already made) is kept.
 */
module Dinero {
  import opened Base
  import opened Exceptions
  import opened Php
  import opened PhpArray
  import opened Transport
  import C = ContactEntity
  import I = InvoiceEntity
  import L = InvoiceLineEntity

  // ===========================================================================
  // Configuration

  /** The configuration array: its scalar entries, and `email_settings` when set. */
  datatype Config = Config(entries: map<string, Value>, emailSettings: Option<Arr<Value>>)

  /** The keys construction insists on, in the order they are checked. */
  const MandatoryKeys: seq<string> := ["client_id", "client_secret", "api_key", "organization_id"]

  function Setting(cfg: Config, key: string): Value
  {
    if key in cfg.entries then cfg.entries[key] else Null
  }

  /** `isset($config[$key]) && !empty($config[$key])`. */
  predicate Supplied(cfg: Config, key: string)
  {
    Truthy(Setting(cfg, key))
  }

  /**
   * `validateConfig`: None when every mandatory key is supplied, otherwise
   * the error for the first one (in checking order) that is not.
   */
  function ValidateConfig(cfg: Config): (r: Option<Error>)
    ensures r.None? <==> forall i | 0 <= i < |MandatoryKeys| :: Supplied(cfg, MandatoryKeys[i])
    ensures r.Some? ==> exists i | 0 <= i < |MandatoryKeys| ::
      && r.value == MissingConfig(MandatoryKeys[i])
      && !Supplied(cfg, MandatoryKeys[i])
      && forall j | 0 <= j < i :: Supplied(cfg, MandatoryKeys[j])
  {
    match FirstFailing(MandatoryKeys, k => Supplied(cfg, k))
    case None => None
    case Some(i) => Some(MissingConfig(MandatoryKeys[i]))
  }

  /**
   * The client's state: the credentials, the default e-mail settings, and
   * the token cache (the token, and its expiry in seconds; null until the
   * first exchange).
   */
  datatype Client = Client(
    clientId: Value, clientSecret: Value, apiKey: Value, organizationId: Value,
    emailSettings: Arr<Value>, accessToken: Value, expiresAt: Option<int>)

  /** The constructor. */
  function NewClient(cfg: Config): (r: Result<Client, Error>)
    ensures r.Err? <==> exists i | 0 <= i < |MandatoryKeys| :: !Supplied(cfg, MandatoryKeys[i])
    ensures r.Err? ==> Some(r.error) == ValidateConfig(cfg)
    ensures r.Ok? ==>
      && r.value.clientId == Setting(cfg, "client_id")
      && r.value.clientSecret == Setting(cfg, "client_secret")
      && r.value.apiKey == Setting(cfg, "api_key")
      && r.value.organizationId == Setting(cfg, "organization_id")
      && r.value.emailSettings == (if cfg.emailSettings.Some? then cfg.emailSettings.value else [])
      && r.value.accessToken == Null && r.value.expiresAt.None?
  {
    match ValidateConfig(cfg)
    case Some(e) => Err(e)
    case None =>
      Ok(Client(
        Setting(cfg, "client_id"), Setting(cfg, "client_secret"), Setting(cfg, "api_key"),
        Setting(cfg, "organization_id"),
        match cfg.emailSettings case Some(s) => s case None => [],
        Null, None))
  }

  // ===========================================================================
  // Operations

  /** What the client reads from its surroundings: the clock, in seconds, and base64 encoding. */
  datatype Env = Env(now: int, base64: string -> string)

  /** The outcome of an operation, with the client and transport states it leaves behind. */
  datatype Step<T> = Step(result: Result<T, Error>, client: Client, net: Net)

  /** The exception the transport raises for a reply, or the reply's body. */
  function ReplyResult(reply: Reply): (r: Result<Body, Error>)
    ensures r.Ok? <==> reply.Answer?
    ensures reply.Answer? ==> r.value == reply.body
    ensures reply.HttpError? ==> r == Err(HttpFailure(reply.status))
    ensures reply.NoResponse? ==> r == Err(TransportFailure)
  {
    match reply
    case Answer(body) => Ok(body)
    case HttpError(status) => Err(HttpFailure(status))
    case NoResponse => Err(TransportFailure)
  }

  // ===========================================================================
  // Access token

  /**
   * A new token is needed when none is cached (an empty or "0" token counts
   * as none) or the cached one expired strictly before now.
   */
  predicate TokenStale(cl: Client, now: int)
  {
    !Truthy(cl.accessToken) || cl.expiresAt.None? || cl.expiresAt.value < now
  }

  /**
   * The resource-owner password credentials grant of section 4.3 of RFC 6749,
   * authenticated with HTTP Basic (section 2 of RFC 7617): the API key is
   * both user name and password.
   */
  function TokenRequest(cl: Client, env: Env): Request
  {
    var credentials := env.base64(ToText(cl.clientId) + ":" + ToText(cl.clientSecret));
    Request(
      TokenEndpoint, "post",
      Text(TokenForm(ToText(cl.apiKey))),
      [("Authorization", "Basic " + credentials), ("Content-Type", "application/x-www-form-urlencoded")])
  }

  /** The form body of the token request; the API key is both user name and password. */
  function TokenForm(apiKey: string): string
  {
    "grant_type=password&scope=read write&username=" + apiKey + "&password=" + apiKey
  }

  /** The cache after a successful exchange at `now`. */
  function Refreshed(cl: Client, body: Body, now: int): Client
  {
    cl.(accessToken := Field(body, "access_token"), expiresAt := Some(now + IntCast(Field(body, "expires_in"))))
  }

  /** `getAccessToken`. */
  function GetAccessToken(cl: Client, net: Net, env: Env): (r: Step<Value>)
    ensures !TokenStale(cl, env.now) ==> r == Step(Ok(cl.accessToken), cl, net)
    ensures TokenStale(cl, env.now) ==> r.net.log == net.log + [TokenRequest(cl, env)]
    ensures TokenStale(cl, env.now) ==> r.net == Transmit(net, TokenRequest(cl, env)).1
    ensures TokenStale(cl, env.now) && NextReply(net).Answer? ==>
      var body := NextReply(net).body;
      && (Field(body, "access_token").Null? ==> r.result == Err(AuthenticationFailed))
      && (!Field(body, "access_token").Null? && IntCast(Field(body, "expires_in")) >= 0 ==>
            r.result == Ok(Field(body, "access_token")) && r.client == Refreshed(cl, body, env.now))
      && (!Field(body, "access_token").Null? && IntCast(Field(body, "expires_in")) < 0 ==>
            r.result == Err(BadInterval))
    ensures TokenStale(cl, env.now) && !NextReply(net).Answer? ==> r.result == Err(ReplyResult(NextReply(net)).error)
    ensures r.result.Err? ==> r.client == cl
    ensures r.result.Ok? ==> r.result.value == r.client.accessToken
  {
    if !TokenStale(cl, env.now) then Step(Ok(cl.accessToken), cl, net)
    else
      var (reply, net') := Transmit(net, TokenRequest(cl, env));
      match ReplyResult(reply)
      case Err(e) => Step(Err(e), cl, net')
      case Ok(body) =>
        if Field(body, "access_token").Null? then Step(Err(AuthenticationFailed), cl, net')
        else if IntCast(Field(body, "expires_in")) < 0 then Step(Err(BadInterval), cl, net')
        else Step(Ok(Field(body, "access_token")), Refreshed(cl, body, env.now), net')
  }

  // ===========================================================================
  // send

  function DefaultHeaders(token: Value): Arr<string>
  {
    [("Authorization", "Bearer " + ToText(token)), ("Content-Type", "application/json")]
  }

  /** The organisation id as it appears in paths. */
  function Org(cl: Client): string
  {
    ToText(cl.organizationId)
  }

  function ApiRequest(cl: Client, token: Value, res: Resource, verb: string, body: Payload, headers: Arr<string>): Request
  {
    Request(Api(Org(cl), res), verb, body, Replace(DefaultHeaders(token), headers))
  }

  /** `send`: obtain a token, then make the request with the default headers under the caller's. */
  function Send(cl: Client, net: Net, env: Env, res: Resource, verb: string, body: Payload, headers: Arr<string>): (r: Step<Body>)
    ensures var t := GetAccessToken(cl, net, env);
      && (t.result.Err? ==> r == Step(Err(t.result.error), t.client, t.net))
      && (t.result.Ok? ==>
            && r.client == t.client
            && r.net.log == t.net.log + [ApiRequest(cl, t.result.value, res, verb, body, headers)]
            && r.net == Transmit(t.net, ApiRequest(cl, t.result.value, res, verb, body, headers)).1
            && r.result == ReplyResult(NextReply(t.net)))
    ensures r.result.Err? ==> RequestFailure(r.result.error)
  {
    var t := GetAccessToken(cl, net, env);
    if t.result.Err? then Step(Err(t.result.error), t.client, t.net)
    else
      var (reply, net') := Transmit(t.net, ApiRequest(cl, t.result.value, res, verb, body, headers));
      Step(ReplyResult(reply), t.client, net')
  }

  // ===========================================================================
  // sendInvoiceEmail

  /** The e-mail settings sent: the configured defaults overridden by the caller's. */
  function EmailBody(cl: Client, settings: Arr<Value>): Arr<Value>
  {
    Replace(cl.emailSettings, settings)
  }

  /** `sendInvoiceEmail`: the reply's body is discarded. */
  function SendInvoiceEmail(cl: Client, net: Net, env: Env, invoiceGuid: string, settings: Arr<Value>): (r: Step<()>)
    ensures var s := Send(cl, net, env, Email(invoiceGuid), "post", ArrayJson(EmailBody(cl, settings)), []);
      && r.client == s.client && r.net == s.net
      && (r.result.Ok? <==> s.result.Ok?)
      && (r.result.Err? ==> r.result.error == s.result.error)
  {
    var s := Send(cl, net, env, Email(invoiceGuid), "post", ArrayJson(EmailBody(cl, settings)), []);
    match s.result
    case Err(e) => Step(Err(e), s.client, s.net)
    case Ok(_) => Step(Ok(()), s.client, s.net)
  }

  // ===========================================================================
  // createContact

  /** The contact property names, as extraction and the error messages spell them. */
  function FieldName(f: C.ContactField): string
  {
    match f
    case ExternalReference => "ExternalReference"
    case Name => "Name"
    case Street => "Street"
    case ZipCode => "ZipCode"
    case City => "City"
    case CountryKey => "CountryKey"
    case Phone => "Phone"
    case Email => "Email"
    case Webpage => "Webpage"
    case AttPerson => "AttPerson"
    case VatNumber => "VatNumber"
    case EanNumber => "EanNumber"
    case PaymentConditionType => "PaymentConditionType"
    case PaymentConditionNumberOfDays => "PaymentConditionNumberOfDays"
    case IsPerson => "IsPerson"
  }

  /** The properties `createContact` insists on, in the order it checks them. */
  const CreateRequired: seq<C.ContactField> := [C.Name, C.IsPerson, C.CountryKey]

  /** `createContact`'s checks: the first required property whose getter returns a falsy value. */
  function CreateContactCheck(c: C.Contact): (r: Option<C.ContactField>)
    ensures r.None? <==> forall i | 0 <= i < |CreateRequired| :: Truthy(C.Get(c, CreateRequired[i]))
    ensures r.Some? ==> exists i | 0 <= i < |CreateRequired| ::
      && r.value == CreateRequired[i]
      && !Truthy(C.Get(c, r.value))
      && forall j | 0 <= j < i :: Truthy(C.Get(c, CreateRequired[j]))
  {
    assert CreateRequired[0] == C.Name && CreateRequired[1] == C.IsPerson && CreateRequired[2] == C.CountryKey;
    if !Truthy(C.Get(c, C.Name)) then Some(C.Name)
    else if !Truthy(C.Get(c, C.IsPerson)) then Some(C.IsPerson)
    else if !Truthy(C.Get(c, C.CountryKey)) then Some(C.CountryKey)
    else None
  }

  /**
   * `createContact`: check the required properties, post the profile, and
   * return a copy of the contact carrying the ContactGuid of the reply.
   */
  function CreateContact(cl: Client, net: Net, env: Env, c: C.Contact): (r: Step<C.Contact>)
    ensures CreateContactCheck(c).Some? ==>
      r == Step(Err(MissingParameter(FieldName(CreateContactCheck(c).value))), cl, net)
    ensures CreateContactCheck(c).None? ==>
      var s := Send(cl, net, env, Contacts, "post", ContactJson(c.profile), []);
      && r.client == s.client && r.net == s.net
      && (s.result.Err? ==> r.result == Err(s.result.error))
      && (s.result.Ok? && Field(s.result.value, "ContactGuid").Null? ==> r.result == Err(TypeError))
      && (s.result.Ok? && !Field(s.result.value, "ContactGuid").Null? ==>
            r.result == Ok(C.WithContactGuid(c, ToText(Field(s.result.value, "ContactGuid")))))
    ensures r.result.Ok? ==> r.result.value.guid.Some? && r.result.value.profile == c.profile
  {
    match CreateContactCheck(c)
    case Some(f) => Step(Err(MissingParameter(FieldName(f))), cl, net)
    case None =>
      var s := Send(cl, net, env, Contacts, "post", ContactJson(c.profile), []);
      match s.result
      case Err(e) => Step(Err(e), s.client, s.net)
      case Ok(body) =>
        match StringParam(Field(body, "ContactGuid"))
        case None => Step(Err(TypeError), s.client, s.net)
        case Some(guid) => Step(Ok(C.WithContactGuid(c, guid)), s.client, s.net)
  }

  // ===========================================================================
  // findContact

  /** The `fields` parameter of a contact search: ContactGuid and every property, ZipCode spelled "Zipcode". */
  const SearchFields :=
    "Name,ContactGuid,ExternalReference,IsPerson,Street,Zipcode,City,CountryKey,Phone,Email,"
    + "Webpage,AttPerson,VatNumber,EanNumber,PaymentConditionType,PaymentConditionNumberOfDays"

  /** The key under which a search reply carries a property: its name as `fields` lists it. */
  function ReplyKey(f: C.ContactField): string
  {
    if f == C.ZipCode then "Zipcode" else FieldName(f)
  }

  lemma ReplyKeyIsNotGuid(f: C.ContactField)
    ensures ReplyKey(f) != "ContactGuid"
  {
    assert |ReplyKey(f)| != |"ContactGuid"|;
  }

  /** The value a filter entry is compared with: a set IsPerson becomes the text 'true' or 'false'. */
  function SearchValue(k: string, v: Value): Value
  {
    if k == "IsPerson" && !v.Null? then Str(if Truthy(v) then "true" else "false") else v
  }

  /** The filter after the IsPerson rewrite, which keeps the entry where it is. */
  function SearchFilter(filter: Arr<Value>): Arr<Value>
  {
    match Get(filter, "IsPerson")
    case None => filter
    case Some(v) => if v.Null? then filter else Put(filter, "IsPerson", SearchValue("IsPerson", v))
  }

  /** One condition of the query filter; the value is inserted without any escaping. */
  function Clause(k: string, v: Value): string
  {
    k + " eq '" + ToText(v) + "'"
  }

  function Clauses(filter: Arr<Value>): (r: seq<string>)
    ensures |r| == |filter|
    ensures forall i | 0 <= i < |filter| :: r[i] == Clause(filter[i].0, filter[i].1)
  {
    seq(|filter|, i requires 0 <= i < |filter| => Clause(filter[i].0, filter[i].1))
  }

  /** The `queryFilter` parameter: the conditions joined by ';', without URL encoding. */
  function QueryFilter(filter: Arr<Value>): string
  {
    Implode(";", Clauses(SearchFilter(filter)))
  }

  /** The contact search request's resource. */
  function SearchResource(filter: Arr<Value>): Resource
  {
    ContactSearch(QueryFilter(filter), SearchFields)
  }

  /** `$dineroContact[$k]`: null when absent. */
  function EntryValue(entry: map<string, Value>, k: string): Value
  {
    if k in entry then entry[k] else Null
  }

  /** Calls the setter of every listed property the entry has a value for. */
  function Hydrate(c: C.Contact, entry: map<string, Value>, fields: seq<C.ContactField>): (r: C.Contact)
    ensures r.guid == c.guid
    ensures forall f | f !in fields :: C.Property(r, f) == C.Property(c, f)
    decreases |fields|
  {
    if |fields| == 0 then c
    else
      var f := fields[0];
      var c' := if ReplyKey(f) in entry then C.Set(c, f, entry[ReplyKey(f)]) else c;
      Hydrate(c', entry, fields[1..])
  }

  /**
   * One entry of a search reply as a contact: constructed with the entry's
   * ContactGuid (null when absent), which is then removed so that hydration
   * does not reach the throwing `setContactGuid`, and hydrated through the setters.
   */
  function FoundContact(entry: map<string, Value>): (r: C.Contact)
    ensures r.guid == StringParam(EntryValue(entry, "ContactGuid"))
  {
    Hydrate(C.New(StringParam(EntryValue(entry, "ContactGuid"))), entry - {"ContactGuid"}, C.AllFields)
  }

  /** The `Collection` of a reply: none when the member is absent. */
  function Entries(body: Body): seq<map<string, Value>>
  {
    match body.collection
    case None => []
    case Some(es) => es
  }

  /** Every entry of a reply's collection as a contact, in the collection's order. */
  function FoundContacts(entries: seq<map<string, Value>>): (r: seq<C.Contact>)
    ensures |r| == |entries|
    ensures forall i | 0 <= i < |entries| :: r[i] == FoundContact(entries[i])
  {
    seq(|entries|, i requires 0 <= i < |entries| => FoundContact(entries[i]))
  }

  /** `findContact`: one search request; every entry of the reply's collection becomes a contact. */
  function FindContact(cl: Client, net: Net, env: Env, filter: Arr<Value>): (r: Step<seq<C.Contact>>)
    ensures var s := Send(cl, net, env, SearchResource(filter), "get", Text(""), []);
      && r.client == s.client && r.net == s.net
      && (s.result.Err? ==> r.result == Err(s.result.error))
      && (s.result.Ok? ==>
            && r.result.Ok?
            && |r.result.value| == |Entries(s.result.value)|
            && forall i | 0 <= i < |r.result.value| :: r.result.value[i] == FoundContact(Entries(s.result.value)[i]))
  {
    var s := Send(cl, net, env, SearchResource(filter), "get", Text(""), []);
    match s.result
    case Err(e) => Step(Err(e), s.client, s.net)
    case Ok(body) => Step(Ok(FoundContacts(Entries(body))), s.client, s.net)
  }

  // ===========================================================================
  // Contact resolution in createInvoice

  /** The properties the lookup filter draws on, in the order it adds them. */
  const LookupFields: seq<C.ContactField> := [C.ExternalReference, C.Name, C.VatNumber, C.EanNumber, C.IsPerson, C.Email]

  /** The filter built from the first `n` lookup properties: each one whose getter is truthy, under its name. */
  function LookupPrefix(c: C.Contact, n: nat): Arr<Value>
    requires n <= |LookupFields|
  {
    if n == 0 then []
    else
      var f := LookupFields[n - 1];
      var a := LookupPrefix(c, n - 1);
      if Truthy(C.Get(c, f)) then Put(a, FieldName(f), C.Get(c, f)) else a
  }

  /** The filter `createInvoice` searches with for a contact without a GUID. */
  function LookupFilter(c: C.Contact): Arr<Value>
  {
    LookupPrefix(c, |LookupFields|)
  }

  /**
   * The contact an invoice is attached to: one with a truthy GUID as it is,
   * otherwise the only search match, or a newly created contact when there
   * is none; several matches raise.
   */
  function ResolveContact(cl: Client, net: Net, env: Env, c: C.Contact): (r: Step<C.Contact>)
  {
    if Truthy(C.GetContactGuid(c)) then Step(Ok(c), cl, net)
    else Choose(c, FindContact(cl, net, env, LookupFilter(c)), env)
  }

  /** What resolution does with the outcome `f` of the search. */
  function Choose(c: C.Contact, f: Step<seq<C.Contact>>, env: Env): (r: Step<C.Contact>)
  {
    match f.result
    case Err(e) => Step(Err(e), f.client, f.net)
    case Ok(found) =>
      if |found| == 0 then CreateContact(f.client, f.net, env, c)
      else if |found| > 1 then Step(Err(MultipleContacts), f.client, f.net)
      else Step(Ok(found[0]), f.client, f.net)
  }

  // ===========================================================================
  // createInvoice

  /** The invoice-line property names, as the error messages spell them. */
  function LineFieldName(f: L.LineField): string
  {
    match f
    case Description => "Description"
    case Comments => "Comments"
    case BaseAmountValue => "BaseAmountValue"
    case Quantity => "Quantity"
    case AccountNumber => "AccountNumber"
    case Unit => "Unit"
  }

  /** The properties every product line must have, in the order they are checked. */
  const LineRequired: seq<L.LineField> := [L.Unit, L.Quantity, L.Description, L.BaseAmountValue, L.AccountNumber]

  /** The first required property of a line whose getter returns a falsy value. */
  function LineCheck(l: L.InvoiceLine): (r: Option<L.LineField>)
    ensures r.None? <==> forall i | 0 <= i < |LineRequired| :: Truthy(L.Get(l, LineRequired[i]))
    ensures r.Some? ==> exists i | 0 <= i < |LineRequired| ::
      && r.value == LineRequired[i]
      && !Truthy(L.Get(l, r.value))
      && forall j | 0 <= j < i :: Truthy(L.Get(l, LineRequired[j]))
  {
    match FirstFailing(LineRequired, f => Truthy(L.Get(l, f)))
    case None => None
    case Some(i) => Some(LineRequired[i])
  }

  /** The first incomplete line, by position, and its first missing property. */
  function LinesCheck(lines: seq<L.InvoiceLine>): (r: Option<(nat, L.LineField)>)
    ensures r.None? <==> forall i | 0 <= i < |lines| :: LineCheck(lines[i]).None?
    ensures r.Some? ==>
      && r.value.0 < |lines|
      && LineCheck(lines[r.value.0]) == Some(r.value.1)
      && forall i | 0 <= i < r.value.0 :: LineCheck(lines[i]).None?
  {
    match FirstFailing(lines, l => LineCheck(l).None?)
    case None => None
    case Some(i) => Some((i, LineCheck(lines[i]).value))
  }

  /**
   * The first half of `createInvoice`: with a contact, resolve it and set
   * the invoice's ContactGuid to the resolved contact's GUID; without one,
   * the invoice is used as it is.
   */
  function AttachContact(cl: Client, net: Net, env: Env, inv: I.Invoice, contact: Option<C.Contact>): (r: Step<I.Invoice>)
  {
    match contact
    case None => Step(Ok(inv), cl, net)
    case Some(c) =>
      var res := ResolveContact(cl, net, env, c);
      match res.result
      case Err(e) => Step(Err(e), res.client, res.net)
      case Ok(c') => Step(Ok(I.SetContactGuid(inv, C.GetContactGuid(c'))), res.client, res.net)
  }

  /** The request that books a created invoice, stamped with the reply's TimeStamp. */
  function BookResource(created: Body): Resource
  {
    Book(ToText(Field(created, "Guid")))
  }

  function BookPayload(created: Body): Payload
  {
    ArrayJson([("Timestamp", Field(created, "TimeStamp"))])
  }

  /** The booking request when asked for, or nothing. */
  function BookIfAsked(cl: Client, net: Net, env: Env, created: Body, book: bool): Step<Body>
  {
    if book then Send(cl, net, env, BookResource(created), "post", BookPayload(created), [])
    else Step(Ok(created), cl, net)
  }

  /**
   * The second half of `createInvoice`, once every line is complete: post the
   * invoice with its lines, book it when asked, and return a copy carrying
   * the Guid of the reply.
   */
  function Submit(cl: Client, net: Net, env: Env, inv: I.Invoice, book: bool): (r: Step<I.Invoice>)
    ensures var p := Send(cl, net, env, Invoices, "post", InvoiceJson(inv.details, I.LinesOf(inv)), []);
      && (p.result.Err? ==> r == Step(Err(p.result.error), p.client, p.net))
      && (p.result.Ok? ==>
            var created := p.result.value;
            var b := BookIfAsked(p.client, p.net, env, created, book);
            && r.client == b.client && r.net == b.net
            && (b.result.Err? ==> r.result == Err(b.result.error))
            && (b.result.Ok? && Field(created, "Guid").Null? ==> r.result == Err(TypeError))
            && (b.result.Ok? && !Field(created, "Guid").Null? ==>
                  r.result == Ok(I.WithGuid(inv, ToText(Field(created, "Guid"))))))
    ensures r.result.Ok? ==> r.result.value.guid.Some? && r.result.value == I.WithGuid(inv, r.result.value.guid.value)
    ensures r.result.Err? ==> RequestFailure(r.result.error) || r.result.error == TypeError
  {
    var p := Send(cl, net, env, Invoices, "post", InvoiceJson(inv.details, I.LinesOf(inv)), []);
    match p.result
    case Err(e) => Step(Err(e), p.client, p.net)
    case Ok(created) =>
      var b := BookIfAsked(p.client, p.net, env, created, book);
      match b.result
      case Err(e) => Step(Err(e), b.client, b.net)
      case Ok(_) =>
        match StringParam(Field(created, "Guid"))
        case None => Step(Err(TypeError), b.client, b.net)
        case Some(guid) => Step(Ok(I.WithGuid(inv, guid)), b.client, b.net)
  }

  /**
   * The outcome of `createInvoice`, the client and transport states, and the
   * caller's invoice as the call leaves it: its ContactGuid is set in place
   * before anything later can fail.
   */
  datatype InvoiceStep = InvoiceStep(result: Result<I.Invoice, Error>, caller: I.Invoice, client: Client, net: Net)

  /**
   * What `createInvoice` does once the contact is dealt with (`a` is the
   * outcome of that first stage): check every line, then submit. The
   * caller's invoice is left as the first stage made it.
   */
  function CheckAndSubmit(inv: I.Invoice, a: Step<I.Invoice>, env: Env, book: bool): (r: InvoiceStep)
    ensures a.result.Err? ==> r == InvoiceStep(Err(a.result.error), inv, a.client, a.net)
    ensures a.result.Ok? ==> r.caller == a.result.value
    ensures a.result.Ok? && LinesCheck(I.LinesOf(a.result.value)).Some? ==>
      var f := LinesCheck(I.LinesOf(a.result.value)).value.1;
      r == InvoiceStep(Err(MissingParameter(LineFieldName(f))), a.result.value, a.client, a.net)
    ensures a.result.Ok? && LinesCheck(I.LinesOf(a.result.value)).None? ==>
      var s := Submit(a.client, a.net, env, a.result.value, book);
      r == InvoiceStep(s.result, a.result.value, s.client, s.net)
    ensures r.result.Ok? ==> LinesCheck(I.LinesOf(r.caller)).None?
    ensures r.result.Ok? ==> r.result.value.guid.Some? && r.result.value == I.WithGuid(r.caller, r.result.value.guid.value)
    ensures r.result.Ok? ==>
      var p := Send(a.client, a.net, env, Invoices, "post", InvoiceJson(r.caller.details, I.LinesOf(r.caller)), []);
      && a.result.Ok? && p.result.Ok?
      && r.result.value == I.WithGuid(r.caller, ToText(Field(p.result.value, "Guid")))
  {
    match a.result
    case Err(e) => InvoiceStep(Err(e), inv, a.client, a.net)
    case Ok(attached) =>
      match LinesCheck(I.LinesOf(attached))
      case Some((_, f)) => InvoiceStep(Err(MissingParameter(LineFieldName(f))), attached, a.client, a.net)
      case None =>
        var s := Submit(a.client, a.net, env, attached, book);
        InvoiceStep(s.result, attached, s.client, s.net)
  }

  /** `createInvoice`. */
  function CreateInvoice(cl: Client, net: Net, env: Env, inv: I.Invoice, contact: Option<C.Contact>, book: bool): (r: InvoiceStep)
    ensures !Truthy(I.Get(inv, I.ContactGuid)) && contact.None? ==>
      r == InvoiceStep(Err(MissingParameter("Contact")), inv, cl, net)
    ensures Truthy(I.Get(inv, I.ContactGuid)) || contact.Some? ==>
      var a := AttachContact(cl, net, env, inv, contact);
      && (a.result.Err? ==> r == InvoiceStep(Err(a.result.error), inv, a.client, a.net))
      && (a.result.Ok? && LinesCheck(I.LinesOf(a.result.value)).Some? ==>
            r.result.Err? && r.result.error.MissingParameter? && r.caller == a.result.value
            && r.client == a.client && r.net == a.net)
      && (a.result.Ok? && LinesCheck(I.LinesOf(a.result.value)).None? ==>
            var s := Submit(a.client, a.net, env, a.result.value, book);
            r == InvoiceStep(s.result, a.result.value, s.client, s.net))
    ensures r.result.Ok? ==> LinesCheck(I.LinesOf(r.caller)).None?
    ensures r.result.Ok? ==> r.result.value.guid.Some? && r.result.value == I.WithGuid(r.caller, r.result.value.guid.value)
    ensures r.result.Ok? ==>
      var a := AttachContact(cl, net, env, inv, contact);
      var p := Send(a.client, a.net, env, Invoices, "post", InvoiceJson(r.caller.details, I.LinesOf(r.caller)), []);
      && a.result.Ok? && r.caller == a.result.value && p.result.Ok?
      && r.result.value == I.WithGuid(r.caller, ToText(Field(p.result.value, "Guid")))
  {
    if !Truthy(I.Get(inv, I.ContactGuid)) && contact.None? then
      InvoiceStep(Err(MissingParameter("Contact")), inv, cl, net)
    else
      CheckAndSubmit(inv, AttachContact(cl, net, env, inv, contact), env, book)
  }

  // ===========================================================================
  // Lemmas: token cache, headers, e-mail settings

  /**
   * After a successful `getAccessToken`, a later call exchanges credentials
   * again exactly when the token is falsy or expired strictly before the new
   * time; otherwise it returns the same token and sends nothing.
   */
  lemma TokenCache(cl: Client, net: Net, env: Env, later: Env)
    requires GetAccessToken(cl, net, env).result.Ok?
    ensures var r := GetAccessToken(cl, net, env);
      var token := r.result.value;
      var r' := GetAccessToken(r.client, r.net, later);
      && r.client.expiresAt.Some?
      && (!Truthy(token) || r.client.expiresAt.value < later.now ==>
            r'.net.log == r.net.log + [TokenRequest(r.client, later)])
      && (Truthy(token) && later.now <= r.client.expiresAt.value ==>
            r' == Step(Ok(token), r.client, r.net))
  {
  }

  /** A token whose expiry is exactly now is still used. */
  lemma TokenExpiringNowIsReused(cl: Client, net: Net, env: Env)
    requires Truthy(cl.accessToken) && cl.expiresAt == Some(env.now)
    ensures GetAccessToken(cl, net, env) == Step(Ok(cl.accessToken), cl, net)
  {
  }

  /**
   * A successful exchange caches the token and `now + (int)expires_in`; if the
   * token is an empty string it counts as absent, so even an immediate second
   * call exchanges again.
   */
  lemma EmptyTokenIsNeverReused(cl: Client, net: Net, env: Env)
    requires TokenStale(cl, env.now)
    requires NextReply(net).Answer? && Field(NextReply(net).body, "access_token") == Str("")
    requires IntCast(Field(NextReply(net).body, "expires_in")) >= 0
    ensures var r := GetAccessToken(cl, net, env);
      && r.result == Ok(Str(""))
      && r.client.expiresAt == Some(env.now + IntCast(Field(NextReply(net).body, "expires_in")))
      && TokenStale(r.client, env.now)
      && |GetAccessToken(r.client, r.net, env).net.log| == |net.log| + 2
  {
  }

  /** A token reply without access_token raises and leaves the cache as it was. */
  lemma MissingTokenLeavesCache(cl: Client, net: Net, env: Env)
    requires TokenStale(cl, env.now)
    requires NextReply(net).Answer? && Field(NextReply(net).body, "access_token") == Null
    ensures var r := GetAccessToken(cl, net, env);
      r.result == Err(AuthenticationFailed) && r.client == cl && |r.net.log| == |net.log| + 1
  {
  }

  /**
   * The token request: a form-encoded post to the OAuth endpoint,
   * authenticated with HTTP Basic over the client id and secret. When the
   * API key holds no '&', splitting the form at '&' gives exactly the grant
   * type, the scope, and the API key as both user name and password.
   */
  lemma TokenRequestForm(cl: Client, env: Env)
    ensures var q := TokenRequest(cl, env);
      && Url(q.endpoint) == "https://authz.dinero.dk/dineroapi/oauth/token"
      && q.verb == "post"
      && Get(q.headers, "Authorization") == Some("Basic " + env.base64(ToText(cl.clientId) + ":" + ToText(cl.clientSecret)))
      && Get(q.headers, "Content-Type") == Some("application/x-www-form-urlencoded")
      && q.body.Text?
  {
  }

  lemma TokenRequestBody(cl: Client, env: Env)
    ensures var key := ToText(cl.apiKey);
      '&' !in key ==>
        Explode('&', TokenRequest(cl, env).body.text) ==
          ["grant_type=password", "scope=read write", "username=" + key, "password=" + key]
  {
    var key := ToText(cl.apiKey);
    if '&' !in key {
      TokenFormFields(key);
    }
  }

  /** Splitting the form at '&' gives its four fields when the key holds no '&'. */
  lemma TokenFormFields(key: string)
    requires '&' !in key
    ensures Explode('&', TokenForm(key)) == ["grant_type=password", "scope=read write", "username=" + key, "password=" + key]
  {
    var a, b, c, d := "grant_type=password", "scope=read write", "username=" + key, "password=" + key;
    TokenFormSplit(key);
    TokenFormLiterals();
    assert c == "username=" + key && d == "password=" + key;
    ExplodeFour('&', a, b, c, d);
  }

  lemma TokenFormSplit(key: string)
    ensures TokenForm(key) ==
      "grant_type=password" + ['&'] + "scope=read write" + ['&'] + ("username=" + key) + ['&'] + ("password=" + key)
  {
    TokenFormHead();
    assert "&password=" == ['&'] + "password=";
  }

  lemma TokenFormHead()
    ensures "grant_type=password&scope=read write&username=" ==
      "grant_type=password" + ['&'] + "scope=read write" + ['&'] + "username="
  {
  }

  lemma TokenFormLiterals()
    ensures '&' !in "grant_type=password" && '&' !in "scope=read write"
    ensures '&' !in "username=" && '&' !in "password="
  {
  }

  /**
   * The headers of every API request: Authorization and Content-Type default
   * to the bearer token and JSON, listed first, and the caller's headers
   * override them and add to them.
   */
  lemma RequestHeaders(token: Value, headers: Arr<string>, k: string)
    requires UniqueKeys(headers)
    ensures KeysOf(DefaultHeaders(token)) <= KeysOf(Replace(DefaultHeaders(token), headers))
    ensures Get(Replace(DefaultHeaders(token), headers), k) ==
      if k in KeysOf(headers) then Get(headers, k)
      else if k == "Authorization" then Some("Bearer " + ToText(token))
      else if k == "Content-Type" then Some("application/json")
      else None
  {
    ReplaceGet(DefaultHeaders(token), headers, k);
    ReplaceKeys(DefaultHeaders(token), headers);
  }

  /**
   * The e-mail settings sent: the caller's value for every key the caller
   * gives, the configured default for every other key, and the defaults'
   * keys keep their order at the front.
   */
  lemma EmailSettingsMerge(cl: Client, settings: Arr<Value>, k: string)
    requires UniqueKeys(settings)
    ensures Get(EmailBody(cl, settings), k) ==
      if k in KeysOf(settings) then Get(settings, k) else Get(cl.emailSettings, k)
    ensures KeysOf(cl.emailSettings) <= KeysOf(EmailBody(cl, settings))
  {
    ReplaceGet(cl.emailSettings, settings, k);
    ReplaceKeys(cl.emailSettings, settings);
  }

  /** Defaults {subject: "Y", cc: "a@b.com"} under {subject: "X"} send {subject: "X", cc: "a@b.com"}. */
  lemma EmailSettingsExample(cl: Client)
    requires cl.emailSettings == [("subject", Str("Y")), ("cc", Str("a@b.com"))]
    ensures EmailBody(cl, [("subject", Str("X"))]) == [("subject", Str("X")), ("cc", Str("a@b.com"))]
  {
  }

  // ===========================================================================
  // Lemmas: requests made by send

  /** The token exchange `send` makes first, when the cached token is stale. */
  function TokenSent(cl: Client, env: Env): seq<Request>
  {
    if TokenStale(cl, env.now) then [TokenRequest(cl, env)] else []
  }

  /**
   * `send` makes at least one request: the token exchange when the cache is
   * stale, then, unless that failed, the API request, and nothing else.
   */
  lemma SendRequests(cl: Client, net: Net, env: Env, res: Resource, verb: string, body: Payload, headers: Arr<string>)
    ensures var r := Send(cl, net, env, res, verb, body, headers);
      var t := GetAccessToken(cl, net, env);
      && Extends(net, r.net)
      && Sent(net, r.net) == TokenSent(cl, env) + (if t.result.Ok? then [ApiRequest(cl, t.result.value, res, verb, body, headers)] else [])
      && |Sent(net, r.net)| >= 1
      && forall i | 0 <= i < |Sent(net, r.net)| ::
           Sent(net, r.net)[i].endpoint == TokenEndpoint || Sent(net, r.net)[i].endpoint == Api(Org(cl), res)
  {
    var r := Send(cl, net, env, res, verb, body, headers);
    var t := GetAccessToken(cl, net, env);
    var api := if t.result.Ok? then [ApiRequest(cl, t.result.value, res, verb, body, headers)] else [];
    assert t.net.log == net.log + TokenSent(cl, env);
    assert r.net.log == t.net.log + api;
    assert r.net.log == net.log + (TokenSent(cl, env) + api);
    assert Sent(net, r.net) == TokenSent(cl, env) + api;
  }

  lemma CountSingle(q: Request, p: Request -> bool)
    ensures Count([q], p) == if p(q) then 1 else 0
  {
    assert [q][..0] == [];
  }

  /**
   * For a kind of request no token exchange belongs to, `send` makes one such
   * request when the token was obtained and the API request is of that kind,
   * and none otherwise.
   */
  lemma SendCount(cl: Client, net: Net, env: Env, res: Resource, verb: string, body: Payload, headers: Arr<string>, p: Request -> bool)
    requires forall q: Request | q.endpoint.TokenEndpoint? :: !p(q)
    ensures var r := Send(cl, net, env, res, verb, body, headers);
      var t := GetAccessToken(cl, net, env);
      && Extends(net, r.net)
      && Count(Sent(net, r.net), p) ==
           if t.result.Ok? && p(ApiRequest(cl, t.result.value, res, verb, body, headers)) then 1 else 0
  {
    var r := Send(cl, net, env, res, verb, body, headers);
    var t := GetAccessToken(cl, net, env);
    SendRequests(cl, net, env, res, verb, body, headers);
    var tail := if t.result.Ok? then [ApiRequest(cl, t.result.value, res, verb, body, headers)] else [];
    CountAppend(TokenSent(cl, env), tail, p);
    CountNone(TokenSent(cl, env), p);
    if t.result.Ok? {
      CountSingle(ApiRequest(cl, t.result.value, res, verb, body, headers), p);
    }
  }

  /** Every request made between the two states is a token exchange or addresses contacts. */
  predicate ContactTrafficOnly(earlier: Net, later: Net)
  {
    && Extends(earlier, later)
    && forall i | |earlier.log| <= i < |later.log| :: IsContactTraffic(later.log[i])
  }

  lemma ContactTrafficChain(a: Net, b: Net, c: Net)
    requires ContactTrafficOnly(a, b) && ContactTrafficOnly(b, c)
    ensures ContactTrafficOnly(a, c)
  {
  }

  /** Between the two states no request of the given kind is made. */
  lemma ContactTrafficCount(earlier: Net, later: Net, p: Request -> bool)
    requires ContactTrafficOnly(earlier, later)
    requires forall q: Request | IsContactTraffic(q) :: !p(q)
    ensures Count(Sent(earlier, later), p) == 0
  {
    var s := Sent(earlier, later);
    forall i | 0 <= i < |s|
      ensures !p(s[i])
    {
      assert s[i] == later.log[|earlier.log| + i];
    }
    CountNone(s, p);
  }

  lemma SendContactTraffic(cl: Client, net: Net, env: Env, res: Resource, verb: string, body: Payload, headers: Arr<string>)
    requires res.Contacts? || res.ContactSearch?
    ensures ContactTrafficOnly(net, Send(cl, net, env, res, verb, body, headers).net)
  {
    var r := Send(cl, net, env, res, verb, body, headers);
    SendRequests(cl, net, env, res, verb, body, headers);
    forall i | |net.log| <= i < |r.net.log|
      ensures IsContactTraffic(r.net.log[i])
    {
      assert r.net.log[i] == Sent(net, r.net)[i - |net.log|];
    }
  }

  // ===========================================================================
  // Lemmas: createContact, findContact

  /**
   * `createContact` makes no request at all exactly when a required property
   * is falsy, and otherwise talks only to the token endpoint and the
   * organisation's contacts.
   */
  lemma CreateContactRequests(cl: Client, net: Net, env: Env, c: C.Contact)
    ensures var r := CreateContact(cl, net, env, c);
      && ContactTrafficOnly(net, r.net)
      && (|r.net.log| == |net.log| <==> exists i | 0 <= i < |CreateRequired| :: !Truthy(C.Get(c, CreateRequired[i])))
  {
    if CreateContactCheck(c).None? {
      SendRequests(cl, net, env, Contacts, "post", ContactJson(c.profile), []);
      SendContactTraffic(cl, net, env, Contacts, "post", ContactJson(c.profile), []);
    }
  }

  /** A contact whose IsPerson is false is never created: its creation fails naming IsPerson. */
  lemma CreateContactRejectsCompany(cl: Client, net: Net, env: Env, c: C.Contact)
    requires Truthy(C.Get(c, C.Name)) && !Truthy(C.Property(c, C.IsPerson))
    ensures CreateContact(cl, net, env, c) == Step(Err(MissingParameter("IsPerson")), cl, net)
  {
    var r := CreateContactCheck(c);
    assert r.Some?;
    assert r.value == C.IsPerson;
  }

  /** Hydration sets a listed property from the entry's value, through its setter, and leaves the rest. */
  lemma {:induction false} HydrateProperty(c: C.Contact, entry: map<string, Value>, fields: seq<C.ContactField>, f: C.ContactField)
    ensures C.Property(Hydrate(c, entry, fields), f) ==
      if f in fields && ReplyKey(f) in entry then C.Stored(f, entry[ReplyKey(f)]) else C.Property(c, f)
    decreases |fields|
  {
    if |fields| > 0 {
      var g := fields[0];
      var c' := if ReplyKey(g) in entry then C.Set(c, g, entry[ReplyKey(g)]) else c;
      HydrateProperty(c', entry, fields[1..], f);
      assert f in fields <==> f == g || f in fields[1..];
    }
  }

  /** A listed property ends up as its setter stores the entry's value, or as it was when the entry lacks it. */
  lemma HydrateListed(c: C.Contact, entry: map<string, Value>, fields: seq<C.ContactField>, f: C.ContactField)
    requires f in fields
    ensures C.Property(Hydrate(c, entry, fields), f) ==
      if ReplyKey(f) in entry then C.Stored(f, entry[ReplyKey(f)]) else C.Property(c, f)
  {
    HydrateProperty(c, entry, fields, f);
  }

  /** Hydrating from an entry with one key removed: the properties read under other keys are unaffected. */
  lemma HydrateWithout(c: C.Contact, entry: map<string, Value>, g: string, fields: seq<C.ContactField>, f: C.ContactField)
    requires f in fields && ReplyKey(f) != g
    ensures C.Property(Hydrate(c, entry - {g}, fields), f) ==
      if ReplyKey(f) in entry then C.Stored(f, entry[ReplyKey(f)]) else C.Property(c, f)
  {
    var k := ReplyKey(f);
    var rest := entry - {g};
    HydrateListed(c, rest, fields, f);
    assert k in rest <==> k in entry;
    assert k in entry ==> rest[k] == entry[k];
  }

  /**
   * Every property of a contact found by a search holds what its setter
   * stores for the entry's value, or null when the entry does not mention it.
   */
  lemma FoundContactProperties(entry: map<string, Value>, f: C.ContactField)
    ensures C.Property(FoundContact(entry), f) ==
      if ReplyKey(f) in entry then C.Stored(f, entry[ReplyKey(f)]) else Null
  {
    C.AllFieldsComplete(f);
    HydrateFound(entry, C.AllFields, f);
  }

  lemma HydrateFound(entry: map<string, Value>, fields: seq<C.ContactField>, f: C.ContactField)
    requires f in fields
    ensures C.Property(Hydrate(C.New(StringParam(EntryValue(entry, "ContactGuid"))), entry - {"ContactGuid"}, fields), f) ==
      if ReplyKey(f) in entry then C.Stored(f, entry[ReplyKey(f)]) else Null
  {
    var c0 := C.New(StringParam(EntryValue(entry, "ContactGuid")));
    ReplyKeyIsNotGuid(f);
    HydrateWithout(c0, entry, "ContactGuid", fields, f);
    assert C.Property(c0, f) == Null;
  }


  /**
   * The query filter lists one condition per filter entry, in the filter's
   * order, comparing the entry's key with its value; only a set IsPerson is
   * rewritten, to 'true' or 'false'.
   */
  lemma QueryClauses(filter: Arr<Value>)
    requires UniqueKeys(filter)
    ensures |Clauses(SearchFilter(filter))| == |filter|
    ensures forall i | 0 <= i < |filter| ::
      Clauses(SearchFilter(filter))[i] == Clause(filter[i].0, SearchValue(filter[i].0, filter[i].1))
  {
    SearchFilterEntries(filter);
  }

  /** The IsPerson rewrite keeps every entry in place and changes at most its value. */
  lemma SearchFilterEntries(filter: Arr<Value>)
    requires UniqueKeys(filter)
    ensures |SearchFilter(filter)| == |filter|
    ensures forall i | 0 <= i < |filter| ::
      SearchFilter(filter)[i] == (filter[i].0, SearchValue(filter[i].0, filter[i].1))
  {
    var ks := KeysOf(filter);
    if "IsPerson" in ks {
      var n :| 0 <= n < |ks| && ks[n] == "IsPerson";
      GetAt(filter, n);
      var v := filter[n].1;
      var out := if v.Null? then filter else filter[n := ("IsPerson", SearchValue("IsPerson", v))];
      if !v.Null? {
        PutExisting(filter, n, SearchValue("IsPerson", v));
      }
      assert SearchFilter(filter) == out;
      forall i | 0 <= i < |filter|
        ensures out[i] == (filter[i].0, SearchValue(filter[i].0, filter[i].1))
      {
        if i != n {
          assert filter[i].0 != filter[n].0;
        }
      }
    } else {
      assert forall i | 0 <= i < |filter| :: filter[i].0 == ks[i];
    }
  }

  /**
   * When no key or compared value contains ';', splitting the query filter
   * at ';' gives back exactly the conditions, and it holds one ';' fewer
   * than there are entries.
   */
  lemma QueryRoundTrip(filter: Arr<Value>)
    requires |filter| >= 1 && UniqueKeys(filter)
    requires forall i | 0 <= i < |filter| ::
      ';' !in filter[i].0 && ';' !in ToText(SearchValue(filter[i].0, filter[i].1))
    ensures Explode(';', QueryFilter(filter)) == Clauses(SearchFilter(filter))
    ensures multiset(QueryFilter(filter))[';'] == |filter| - 1
  {
    QueryClauses(filter);
    var cs := Clauses(SearchFilter(filter));
    assert forall i | 0 <= i < |cs| :: ';' !in cs[i];
    ExplodeImplode(';', cs);
    ImplodeSeparatorCount(';', cs);
  }

  /** A filter without an IsPerson key is searched for as it is. */
  lemma SearchFilterWithoutIsPerson(filter: Arr<Value>)
    requires "IsPerson" !in KeysOf(filter)
    ensures SearchFilter(filter) == filter
  {
  }

  lemma ClauseSplice(k1: string, v1: string, k2: string, v2: string)
    ensures Clause(k1, Str(v1 + "';" + k2 + " eq '" + v2)) == Clause(k1, Str(v1)) + ";" + Clause(k2, Str(v2))
  {
    assert "';" == "'" + ";";
  }

  /**
   * Values are not escaped: a value that contains `';` followed by a further
   * condition produces the same query as a filter with two entries.
   */
  lemma QueryNotInjective(k1: string, v1: string, k2: string, v2: string)
    requires k1 != "IsPerson" && k2 != "IsPerson"
    ensures QueryFilter([(k1, Str(v1 + "';" + k2 + " eq '" + v2))]) == QueryFilter([(k1, Str(v1)), (k2, Str(v2))])
  {
    var one: Arr<Value> := [(k1, Str(v1 + "';" + k2 + " eq '" + v2))];
    var two: Arr<Value> := [(k1, Str(v1)), (k2, Str(v2))];
    SearchFilterWithoutIsPerson(one);
    SearchFilterWithoutIsPerson(two);
    assert Clauses(two) == [Clause(k1, Str(v1)), Clause(k2, Str(v2))];
    ImplodeTwo(";", Clause(k1, Str(v1)), Clause(k2, Str(v2)));
    assert Clauses(one) == [Clause(k1, Str(v1 + "';" + k2 + " eq '" + v2))];
    ClauseSplice(k1, v1, k2, v2);
  }

  /**
   * The search URL: the organisation's contacts, the query filter as built,
   * then the fixed field list. An empty filter gives an empty queryFilter.
   */
  lemma SearchUrl(org: string, filter: Arr<Value>)
    ensures Url(Api(org, SearchResource(filter))) ==
      "https://api.dinero.dk/v1/" + org + "/contacts?queryFilter=" + QueryFilter(filter) + "&fields=" + SearchFields
    ensures |filter| == 0 ==>
      Url(Api(org, SearchResource(filter))) == "https://api.dinero.dk/v1/" + org + "/contacts?queryFilter=&fields=" + SearchFields
  {
    SearchPath(org, QueryFilter(filter), SearchFields);
    if |filter| == 0 {
      assert QueryFilter(filter) == "";
      EmptySearchPath(org, SearchFields);
    }
  }

  /** A contact search's URL: the versioned base, the organisation's contacts, then the two parameters. */
  lemma SearchPath(org: string, query: string, fields: string)
    ensures Url(Api(org, ContactSearch(query, fields))) ==
      "https://api.dinero.dk/v1/" + org + "/contacts?queryFilter=" + query + "&fields=" + fields
  {
    UrlLiterals();
    Regroup(BaseUrl, "/", "https://api.dinero.dk/v1/", org, "/contacts", "?queryFilter=", "/contacts?queryFilter=",
      query, "&fields=", fields);
  }

  /** Regrouping of a concatenation, over sequences the solver need not look into. */
  lemma Regroup<T>(a: seq<T>, b: seq<T>, ab: seq<T>, o: seq<T>, c: seq<T>, d: seq<T>, cd: seq<T>,
                   q: seq<T>, e: seq<T>, f: seq<T>)
    requires a + b == ab && c + d == cd
    ensures a + (b + o + c + d + q + e + f) == ab + o + cd + q + e + f
  {
  }

  lemma EmptySearchPath(org: string, fields: string)
    ensures Url(Api(org, ContactSearch("", fields))) == "https://api.dinero.dk/v1/" + org + "/contacts?queryFilter=&fields=" + fields
  {
    SearchPath(org, "", fields);
    UrlLiterals();
  }

  /** The booking URL of an invoice. */
  lemma BookUrl(org: string, guid: string)
    ensures Url(Api(org, Book(guid))) == "https://api.dinero.dk/v1/" + org + "/invoices/" + guid + "/book"
  {
    UrlLiterals();
  }

  lemma UrlLiterals()
    ensures BaseUrl + "/" == "https://api.dinero.dk/v1/"
    ensures "/contacts" + "?queryFilter=" == "/contacts?queryFilter="
    ensures "/contacts?queryFilter=" + "&fields=" == "/contacts?queryFilter=&fields="
    ensures "/invoices" + "/" == "/invoices/"
  {
  }

  // ===========================================================================
  // Lemmas: contact resolution

  lemma LookupNamesDistinct(i: nat, j: nat)
    requires i < j < |LookupFields|
    ensures FieldName(LookupFields[i]) != FieldName(LookupFields[j])
  {
    var a, b := FieldName(LookupFields[i]), FieldName(LookupFields[j]);
    assert |a| != |b| || a[0] != b[0];
  }

  /**
   * The filter built from the first `n` lookup properties holds, under each
   * of their names, the getter's value exactly when it is truthy.
   */
  lemma {:induction false} LookupPrefixGet(c: C.Contact, n: nat, k: nat)
    requires n <= |LookupFields| && k < |LookupFields|
    ensures Get(LookupPrefix(c, n), FieldName(LookupFields[k])) ==
      if k < n && Truthy(C.Get(c, LookupFields[k])) then Some(C.Get(c, LookupFields[k])) else None
    decreases n
  {
    if n > 0 {
      var f := LookupFields[n - 1];
      LookupPrefixGet(c, n - 1, k);
      if k < n - 1 {
        LookupNamesDistinct(k, n - 1);
      } else if k > n - 1 {
        LookupNamesDistinct(n - 1, k);
      }
      PutIfGet(LookupPrefix(c, n - 1), FieldName(f), C.Get(c, f), Truthy(C.Get(c, f)), FieldName(LookupFields[k]));
    }
  }

  /** One step of the lookup filter: an assignment made only when `cond` holds. */
  lemma PutIfGet(a: Arr<Value>, name: string, v: Value, cond: bool, key: string)
    ensures Get(if cond then Put(a, name, v) else a, key) == if cond && key == name then Some(v) else Get(a, key)
  {
    if cond {
      PutGet(a, name, v, key);
    }
  }

  /** Each truthy lookup property is appended after those before it, never overwriting one. */
  lemma LookupPrefixAppends(c: C.Contact, n: nat)
    requires n < |LookupFields|
    ensures var f := LookupFields[n];
      KeysOf(LookupPrefix(c, n + 1)) ==
        KeysOf(LookupPrefix(c, n)) + if Truthy(C.Get(c, f)) then [FieldName(f)] else []
  {
    var f := LookupFields[n];
    LookupPrefixGet(c, n, n);
    if Truthy(C.Get(c, f)) {
      PutKeys(LookupPrefix(c, n), FieldName(f), C.Get(c, f));
    }
  }

  lemma {:induction false} LookupPrefixUnique(c: C.Contact, n: nat)
    requires n <= |LookupFields|
    ensures UniqueKeys(LookupPrefix(c, n))
    decreases n
  {
    if n > 0 {
      LookupPrefixUnique(c, n - 1);
      var f := LookupFields[n - 1];
      if Truthy(C.Get(c, f)) {
        PutUnique(LookupPrefix(c, n - 1), FieldName(f), C.Get(c, f));
      }
    }
  }

  /**
   * The lookup filter of a contact: a PHP array (no key twice) that holds,
   * for ExternalReference, Name, VatNumber, EanNumber, IsPerson and Email,
   * the getter's value exactly when it is truthy.
   */
  lemma LookupFilterContents(c: C.Contact, k: nat)
    requires k < |LookupFields|
    ensures UniqueKeys(LookupFilter(c))
    ensures Get(LookupFilter(c), FieldName(LookupFields[k])) ==
      if Truthy(C.Get(c, LookupFields[k])) then Some(C.Get(c, LookupFields[k])) else None
  {
    LookupPrefixUnique(c, |LookupFields|);
    LookupPrefixGet(c, |LookupFields|, k);
  }

  /**
   * A contact that is a person is searched for with IsPerson = 'true' and
   * the condition IsPerson eq 'true'; one that is not contributes no IsPerson
   * entry at all, so the search never asks for IsPerson eq 'false'.
   */
  lemma LookupIsPerson(c: C.Contact)
    ensures Truthy(C.Property(c, C.IsPerson)) ==>
      && Get(SearchFilter(LookupFilter(c)), "IsPerson") == Some(Str("true"))
      && Clause("IsPerson", Str("true")) in Clauses(SearchFilter(LookupFilter(c)))
    ensures !Truthy(C.Property(c, C.IsPerson)) ==> "IsPerson" !in KeysOf(SearchFilter(LookupFilter(c)))
  {
    var a := LookupFilter(c);
    LookupFilterContents(c, 4);
    QueryClauses(a);
    if Truthy(C.Property(c, C.IsPerson)) {
      var ks := KeysOf(a);
      var i :| 0 <= i < |ks| && ks[i] == "IsPerson";
      GetAt(a, i);
      PutGet(a, "IsPerson", Str("true"), "IsPerson");
      assert Clauses(SearchFilter(a))[i] == Clause("IsPerson", Str("true"));
    }
  }

  /** Resolving a contact talks only to the token endpoint and the organisation's contacts. */
  lemma ResolveContactRequests(cl: Client, net: Net, env: Env, c: C.Contact)
    ensures ContactTrafficOnly(net, ResolveContact(cl, net, env, c).net)
  {
    if !Truthy(C.GetContactGuid(c)) {
      var f := FindContact(cl, net, env, LookupFilter(c));
      SendContactTraffic(cl, net, env, SearchResource(LookupFilter(c)), "get", Text(""), []);
      if f.result.Ok? && |f.result.value| == 0 {
        CreateContactRequests(f.client, f.net, env, c);
        ContactTrafficChain(net, f.net, ResolveContact(cl, net, env, c).net);
      }
    }
  }

  /**
   * Attaching a contact talks only to the token endpoint and the
   * organisation's contacts: it neither posts nor books an invoice.
   */
  lemma AttachContactRequests(cl: Client, net: Net, env: Env, inv: I.Invoice, contact: Option<C.Contact>)
    ensures var a := AttachContact(cl, net, env, inv, contact);
      && Extends(net, a.net)
      && Count(Sent(net, a.net), IsInvoicePost) == 0
      && Count(Sent(net, a.net), IsBookPost) == 0
  {
    var a := AttachContact(cl, net, env, inv, contact);
    if contact.Some? {
      ResolveContactRequests(cl, net, env, contact.value);
    }
    ContactTrafficCount(net, a.net, IsInvoicePost);
    ContactTrafficCount(net, a.net, IsBookPost);
  }

  /**
   * What resolution yields: a contact with a truthy GUID itself; otherwise
   * the search's only match, or, when nothing matches, a newly created copy
   * of the contact (same profile, now with a GUID). It fails for ambiguity
   * exactly when the search finds several matches. After the search, only
   * the no-match case sends anything more: exactly one `createContact`.
   */
  lemma ResolveContactOutcome(cl: Client, net: Net, env: Env, c: C.Contact)
    ensures var r := ResolveContact(cl, net, env, c);
      var known := Truthy(C.GetContactGuid(c));
      var f := FindContact(cl, net, env, LookupFilter(c));
      && ContactTrafficOnly(net, r.net)
      && (known ==> r == Step(Ok(c), cl, net))
      && (r.result.Ok? && !known ==>
            && f.result.Ok?
            && (f.result.value == [r.result.value]
                || (f.result.value == [] && r.result.value.profile == c.profile && r.result.value.guid.Some?)))
      && (r.result == Err(MultipleContacts) <==> !known && f.result.Ok? && |f.result.value| > 1)
      && (!known && f.result.Err? ==> r == Step(Err(f.result.error), f.client, f.net))
      && (!known && f.result.Ok? && |f.result.value| == 1 ==> r == Step(Ok(f.result.value[0]), f.client, f.net))
      && (!known && f.result.Ok? && |f.result.value| == 0 ==> r == CreateContact(f.client, f.net, env, c))
  {
    ResolveContactRequests(cl, net, env, c);
    if !Truthy(C.GetContactGuid(c)) {
      var f := FindContact(cl, net, env, LookupFilter(c));
      assert f.result.Err? ==> RequestFailure(f.result.error);
      ChooseOutcome(c, f, env);
      ChooseSteps(c, f, env);
    }
  }

  /** After the search: the only match, a created copy, or ambiguity exactly when there are several matches. */
  lemma ChooseOutcome(c: C.Contact, f: Step<seq<C.Contact>>, env: Env)
    requires f.result.Err? ==> RequestFailure(f.result.error)
    ensures var r := Choose(c, f, env);
      && (r.result.Ok? ==>
            && f.result.Ok?
            && (f.result.value == [r.result.value]
                || (f.result.value == [] && r.result.value.profile == c.profile && r.result.value.guid.Some?)))
      && (r.result == Err(MultipleContacts) <==> f.result.Ok? && |f.result.value| > 1)
  {
    if f.result.Ok? && |f.result.value| == 1 {
      assert f.result.value == [f.result.value[0]];
    }
  }

  /** After the search, only the no-match case sends anything: one `createContact`. */
  lemma ChooseSteps(c: C.Contact, f: Step<seq<C.Contact>>, env: Env)
    ensures var r := Choose(c, f, env);
      && (f.result.Err? ==> r == Step(Err(f.result.error), f.client, f.net))
      && (f.result.Ok? && |f.result.value| == 1 ==> r == Step(Ok(f.result.value[0]), f.client, f.net))
      && (f.result.Ok? && |f.result.value| > 1 ==> r == Step(Err(MultipleContacts), f.client, f.net))
      && (f.result.Ok? && |f.result.value| == 0 ==> r == CreateContact(f.client, f.net, env, c))
  {
  }

  /**
   * The contact stage changes nothing of the invoice but its ContactGuid,
   * which becomes the resolved contact's GUID; without a contact the invoice
   * is used as it is.
   */
  lemma AttachContactFrame(cl: Client, net: Net, env: Env, inv: I.Invoice, contact: Option<C.Contact>)
    ensures var a := AttachContact(cl, net, env, inv, contact);
      && (contact.None? ==> a == Step(Ok(inv), cl, net))
      && (contact.Some? ==>
            var res := ResolveContact(cl, net, env, contact.value);
            && a.client == res.client && a.net == res.net
            && (a.result.Err? <==> res.result.Err?)
            && (a.result.Err? ==> a.result.error == res.result.error)
            && (a.result.Ok? ==> I.Get(a.result.value, I.ContactGuid) == C.GetContactGuid(res.result.value)))
      && (a.result.Ok? ==>
            && a.result.value.guid == inv.guid
            && a.result.value.productLines == inv.productLines
            && forall g | g != I.ContactGuid :: I.Get(a.result.value, g) == I.Get(inv, g))
  {
  }

  // ===========================================================================
  // Lemmas: createInvoice

  /** A fresh line is rejected for its Unit, the first property checked. */
  lemma FreshLineMissesUnit()
    ensures LineCheck(L.New()) == Some(L.Unit)
  {
    var r := LineCheck(L.New());
    assert r.Some?;
    assert r.value == LineRequired[0];
  }

  /** Comments is not required: setting it never changes the outcome of the line checks. */
  lemma CommentsNotRequired(l: L.InvoiceLine, v: Value)
    ensures LineCheck(L.Set(l, L.Comments, v)) == LineCheck(l)
  {
    var l' := L.Set(l, L.Comments, v);
    assert forall i | 0 <= i < |LineRequired| :: L.Get(l', LineRequired[i]) == L.Get(l, LineRequired[i]);
  }

  lemma SendCountNone(cl: Client, net: Net, env: Env, res: Resource, verb: string, body: Payload, headers: Arr<string>, p: Request -> bool)
    requires forall q: Request | q.endpoint.TokenEndpoint? :: !p(q)
    requires forall tok: Value :: !p(ApiRequest(cl, tok, res, verb, body, headers))
    ensures var r := Send(cl, net, env, res, verb, body, headers);
      Extends(net, r.net) && Count(Sent(net, r.net), p) == 0
  {
    SendCount(cl, net, env, res, verb, body, headers, p);
  }

  /** Posting the invoice: at most one invoice post and no booking; exactly one post when it succeeds. */
  lemma PostRequests(cl: Client, net: Net, env: Env, inv: I.Invoice)
    ensures var payload := InvoiceJson(inv.details, I.LinesOf(inv));
      var p := Send(cl, net, env, Invoices, "post", payload, []);
      && Extends(net, p.net)
      && Count(Sent(net, p.net), IsInvoicePost) <= 1
      && Count(Sent(net, p.net), IsInvoicePost) == (if GetAccessToken(cl, net, env).result.Ok? then 1 else 0)
      && Count(Sent(net, p.net), IsBookPost) == 0
      && (p.result.Ok? ==>
            && Count(Sent(net, p.net), IsInvoicePost) == 1
            && |p.net.log| > |net.log|
            && p.net.log[|p.net.log| - 1].endpoint == Api(Org(cl), Invoices)
            && p.net.log[|p.net.log| - 1].body == payload)
  {
    var payload := InvoiceJson(inv.details, I.LinesOf(inv));
    SendCount(cl, net, env, Invoices, "post", payload, [], IsInvoicePost);
    SendCountNone(cl, net, env, Invoices, "post", payload, [], IsBookPost);
  }

  /** Booking when asked: no invoice post, at most one booking; one booking, of the reply's Guid, when asked and it succeeds. */
  lemma BookRequests(cl: Client, net: Net, env: Env, created: Body, book: bool)
    ensures var b := BookIfAsked(cl, net, env, created, book);
      && Extends(net, b.net)
      && Count(Sent(net, b.net), IsInvoicePost) == 0
      && Count(Sent(net, b.net), IsBookPost) <= (if book then 1 else 0)
      && (b.result.Ok? ==> Count(Sent(net, b.net), IsBookPost) == (if book then 1 else 0))
      && (book && b.result.Ok? ==>
            && |b.net.log| > |net.log|
            && b.net.log[|b.net.log| - 1].endpoint == Api(Org(cl), Book(ToText(Field(created, "Guid"))))
            && b.net.log[|b.net.log| - 1].body == ArrayJson([("Timestamp", Field(created, "TimeStamp"))]))
  {
    if book {
      SendCountNone(cl, net, env, BookResource(created), "post", BookPayload(created), [], IsInvoicePost);
      SendCount(cl, net, env, BookResource(created), "post", BookPayload(created), [], IsBookPost);
    } else {
      assert Sent(net, net) == [];
    }
  }

  /**
   * Submission posts the invoice at most once and books it at most once,
   * and only when asked; when it succeeds, it has posted exactly once and
   * booked exactly when asked.
   */
  lemma SubmitRequests(cl: Client, net: Net, env: Env, inv: I.Invoice, book: bool)
    ensures var r := Submit(cl, net, env, inv, book);
      && Extends(net, r.net)
      && Count(Sent(net, r.net), IsInvoicePost) <= 1
      && Count(Sent(net, r.net), IsInvoicePost) == (if GetAccessToken(cl, net, env).result.Ok? then 1 else 0)
      && Count(Sent(net, r.net), IsBookPost) <= (if book then 1 else 0)
      && (r.result.Ok? ==>
            && Count(Sent(net, r.net), IsInvoicePost) == 1
            && Count(Sent(net, r.net), IsBookPost) == (if book then 1 else 0))
  {
    var p := Send(cl, net, env, Invoices, "post", InvoiceJson(inv.details, I.LinesOf(inv)), []);
    PostRequests(cl, net, env, inv);
    if p.result.Ok? {
      var created := p.result.value;
      var b := BookIfAsked(p.client, p.net, env, created, book);
      BookRequests(p.client, p.net, env, created, book);
      CountSplit(net, p.net, b.net, IsInvoicePost);
      CountSplit(net, p.net, b.net, IsBookPost);
    }
  }

  /**
   * A successful submission has posted the invoice's properties and lines
   * to the organisation's invoices and returns the Guid of that post's reply;
   * when asked to book, its last request books that Guid with the reply's
   * TimeStamp.
   */
  lemma SubmitSends(cl: Client, net: Net, env: Env, inv: I.Invoice, book: bool)
    requires Submit(cl, net, env, inv, book).result.Ok?
    ensures var r := Submit(cl, net, env, inv, book);
      var p := Send(cl, net, env, Invoices, "post", InvoiceJson(inv.details, I.LinesOf(inv)), []);
      && p.result.Ok?
      && Extends(net, r.net)
      && (exists i | |net.log| <= i < |r.net.log| ::
            r.net.log[i].endpoint == Api(Org(cl), Invoices)
            && r.net.log[i].body == InvoiceJson(inv.details, I.LinesOf(inv)))
      && r.result.value.guid == Some(ToText(Field(p.result.value, "Guid")))
      && (book ==>
            && r.net.log[|r.net.log| - 1].endpoint == Api(Org(cl), Book(r.result.value.guid.value))
            && r.net.log[|r.net.log| - 1].body == ArrayJson([("Timestamp", Field(p.result.value, "TimeStamp"))]))
  {
    var p := Send(cl, net, env, Invoices, "post", InvoiceJson(inv.details, I.LinesOf(inv)), []);
    PostRequests(cl, net, env, inv);
    var created := p.result.value;
    var b := BookIfAsked(p.client, p.net, env, created, book);
    BookRequests(p.client, p.net, env, created, book);
    var k := |p.net.log| - 1;
    assert b.net.log[k] == p.net.log[k];
    assert Org(p.client) == Org(cl);
  }

  /** The ways out of the second stage: after the first stage fails, after a line check fails, or after submission. */
  lemma CheckAndSubmitStages(inv: I.Invoice, a: Step<I.Invoice>, env: Env, book: bool)
    ensures var r := CheckAndSubmit(inv, a, env, book);
      && (a.result.Ok? && LinesCheck(I.LinesOf(a.result.value)).Some? ==>
            r.client == a.client && r.net == a.net && r.result.Err? && r.result.error.MissingParameter?)
      && (a.result.Ok? && LinesCheck(I.LinesOf(a.result.value)).None? ==>
            var sub := Submit(a.client, a.net, env, a.result.value, book);
            r.client == sub.client && r.net == sub.net && r.result == sub.result)
  {
  }

  /**
   * What `createInvoice` sends: at most one invoice post and one booking,
   * the booking only when asked; on success exactly one post, and exactly
   * one booking when asked.
   */
  lemma CreateInvoiceRequests(cl: Client, net: Net, env: Env, inv: I.Invoice, contact: Option<C.Contact>, book: bool)
    ensures Extends(net, CreateInvoice(cl, net, env, inv, contact, book).net)
    ensures var r := CreateInvoice(cl, net, env, inv, contact, book);
      && Count(Sent(net, r.net), IsInvoicePost) <= 1
      && Count(Sent(net, r.net), IsBookPost) <= (if book then 1 else 0)
      && (r.result.Ok? ==>
            && Count(Sent(net, r.net), IsInvoicePost) == 1
            && Count(Sent(net, r.net), IsBookPost) == (if book then 1 else 0))
    ensures var r := CreateInvoice(cl, net, env, inv, contact, book);
      var a := AttachContact(cl, net, env, inv, contact);
      var reached := (Truthy(I.Get(inv, I.ContactGuid)) || contact.Some?)
        && a.result.Ok? && LinesCheck(I.LinesOf(a.result.value)).None?;
      && (!reached ==> Count(Sent(net, r.net), IsInvoicePost) == 0 && Count(Sent(net, r.net), IsBookPost) == 0)
      && (reached ==> Count(Sent(net, r.net), IsInvoicePost) == (if GetAccessToken(a.client, a.net, env).result.Ok? then 1 else 0))
  {
    var r := CreateInvoice(cl, net, env, inv, contact, book);
    if !Truthy(I.Get(inv, I.ContactGuid)) && contact.None? {
      assert Sent(net, r.net) == [];
    } else {
      var a := AttachContact(cl, net, env, inv, contact);
      assert r == CheckAndSubmit(inv, a, env, book);
      AttachContactRequests(cl, net, env, inv, contact);
      InvoiceCountsFrom(net, inv, a, env, book);
    }
  }

  /** The counts of the second stage, after a first stage that posted and booked nothing. */
  lemma InvoiceCountsFrom(net: Net, inv: I.Invoice, a: Step<I.Invoice>, env: Env, book: bool)
    requires Extends(net, a.net)
    requires Count(Sent(net, a.net), IsInvoicePost) == 0 && Count(Sent(net, a.net), IsBookPost) == 0
    ensures var r := CheckAndSubmit(inv, a, env, book);
      && Extends(net, r.net)
      && Count(Sent(net, r.net), IsInvoicePost) <= 1
      && Count(Sent(net, r.net), IsBookPost) <= (if book then 1 else 0)
      && (r.result.Ok? ==>
            && Count(Sent(net, r.net), IsInvoicePost) == 1
            && Count(Sent(net, r.net), IsBookPost) == (if book then 1 else 0))
      && (a.result.Err? || (a.result.Ok? && LinesCheck(I.LinesOf(a.result.value)).Some?) ==>
            Count(Sent(net, r.net), IsInvoicePost) == 0 && Count(Sent(net, r.net), IsBookPost) == 0)
      && (a.result.Ok? && LinesCheck(I.LinesOf(a.result.value)).None? ==>
            Count(Sent(net, r.net), IsInvoicePost) == (if GetAccessToken(a.client, a.net, env).result.Ok? then 1 else 0))
  {
    CheckAndSubmitStages(inv, a, env, book);
    if a.result.Ok? {
      SubmitAfter(net, a, env, book);
      SubmitRequests(a.client, a.net, env, a.result.value, book);
    }
  }

  /**
   * When `createInvoice` fails for a missing parameter (of the invoice, of a
   * contact it has to create, or of a line) or for an ambiguous contact, it
   * has posted and booked nothing.
   */
  lemma FailedInvoicePostsNothing(cl: Client, net: Net, env: Env, inv: I.Invoice, contact: Option<C.Contact>, book: bool)
    requires var r := CreateInvoice(cl, net, env, inv, contact, book);
      r.result.Err? && (r.result.error.MissingParameter? || r.result.error == MultipleContacts)
    ensures Extends(net, CreateInvoice(cl, net, env, inv, contact, book).net)
    ensures Count(Sent(net, CreateInvoice(cl, net, env, inv, contact, book).net), IsInvoicePost) == 0
    ensures Count(Sent(net, CreateInvoice(cl, net, env, inv, contact, book).net), IsBookPost) == 0
  {
    var r := CreateInvoice(cl, net, env, inv, contact, book);
    if !Truthy(I.Get(inv, I.ContactGuid)) && contact.None? {
      assert Sent(net, r.net) == [];
    } else {
      var a := AttachContact(cl, net, env, inv, contact);
      assert r == CheckAndSubmit(inv, a, env, book);
      AttachContactRequests(cl, net, env, inv, contact);
      FailureBeforeSubmission(inv, a, env, book);
    }
  }

  /** A missing parameter or an ambiguous contact stops the call before the invoice is submitted. */
  lemma FailureBeforeSubmission(inv: I.Invoice, a: Step<I.Invoice>, env: Env, book: bool)
    requires var r := CheckAndSubmit(inv, a, env, book);
      r.result.Err? && (r.result.error.MissingParameter? || r.result.error == MultipleContacts)
    ensures CheckAndSubmit(inv, a, env, book).net == a.net
  {
    CheckAndSubmitStages(inv, a, env, book);
  }

  /** Submission after earlier requests: the earlier ones add to the counts over the whole stretch. */
  lemma SubmitAfter(net: Net, a: Step<I.Invoice>, env: Env, book: bool)
    requires a.result.Ok? && Extends(net, a.net)
    ensures var sub := Submit(a.client, a.net, env, a.result.value, book);
      && Extends(a.net, sub.net)
      && Extends(net, sub.net)
      && Count(Sent(net, sub.net), IsInvoicePost) == Count(Sent(net, a.net), IsInvoicePost) + Count(Sent(a.net, sub.net), IsInvoicePost)
      && Count(Sent(net, sub.net), IsBookPost) == Count(Sent(net, a.net), IsBookPost) + Count(Sent(a.net, sub.net), IsBookPost)
  {
    var sub := Submit(a.client, a.net, env, a.result.value, book);
    SubmitRequests(a.client, a.net, env, a.result.value, book);
    CountSplit(net, a.net, sub.net, IsInvoicePost);
    CountSplit(net, a.net, sub.net, IsBookPost);
  }

  /**
   * A contact that already has a GUID is not looked up: before anything is
   * sent, the invoice's ContactGuid is overwritten with it, whatever the
   * invoice carried, and the caller's invoice keeps that change.
   */
  lemma KnownContactSkipsLookup(cl: Client, net: Net, env: Env, inv: I.Invoice, c: C.Contact, book: bool)
    requires Truthy(C.GetContactGuid(c))
    ensures AttachContact(cl, net, env, inv, Some(c)) == Step(Ok(I.SetContactGuid(inv, C.GetContactGuid(c))), cl, net)
    ensures var r := CreateInvoice(cl, net, env, inv, Some(c), book);
      && r.caller == I.SetContactGuid(inv, C.GetContactGuid(c))
      && I.Get(r.caller, I.ContactGuid) == C.GetContactGuid(c)
  {
  }

  /**
   * When the lookup for a contact without a GUID finds several matches, the
   * call fails with the ambiguity right after the search (so, by
   * FailedInvoicePostsNothing, posts no invoice) and leaves the caller's
   * invoice as it was.
   */
  lemma AmbiguousContactPostsNothing(cl: Client, net: Net, env: Env, inv: I.Invoice, c: C.Contact, book: bool)
    requires !Truthy(C.GetContactGuid(c))
    requires var f := FindContact(cl, net, env, LookupFilter(c)); f.result.Ok? && |f.result.value| > 1
    ensures var r := CreateInvoice(cl, net, env, inv, Some(c), book);
      && r.result == Err(MultipleContacts)
      && r.caller == inv
      && r.net == FindContact(cl, net, env, LookupFilter(c)).net
  {
  }

  /**
   * When a product line is incomplete, the call fails naming the first
   * missing property of the first incomplete line, sends nothing after
   * resolving the contact (so, by FailedInvoicePostsNothing, posts no
   * invoice), and the caller's invoice nevertheless already carries the
   * resolved ContactGuid.
   */
  lemma IncompleteLineFails(cl: Client, net: Net, env: Env, inv: I.Invoice, contact: Option<C.Contact>, book: bool)
    requires Truthy(I.Get(inv, I.ContactGuid)) || contact.Some?
    requires var a := AttachContact(cl, net, env, inv, contact);
      a.result.Ok? && LinesCheck(I.LinesOf(a.result.value)).Some?
    ensures var a := AttachContact(cl, net, env, inv, contact);
      var r := CreateInvoice(cl, net, env, inv, contact, book);
      && r.result == Err(MissingParameter(LineFieldName(LinesCheck(I.LinesOf(a.result.value)).value.1)))
      && r.caller == a.result.value
      && r.net == a.net
  {
  }

  /** An invoice whose only line is fresh is rejected for the line's Unit. */
  lemma FreshLineRejected(cl: Client, net: Net, env: Env, inv: I.Invoice, book: bool)
    requires Truthy(I.Get(inv, I.ContactGuid)) && inv.productLines == Some([L.New()])
    ensures CreateInvoice(cl, net, env, inv, None, book) == InvoiceStep(Err(MissingParameter("Unit")), inv, cl, net)
  {
    FreshLineMissesUnit();
    assert LinesCheck([L.New()]) == Some((0, L.Unit));
  }

  /**
   * An invoice whose ProductLines was never set has no lines to check: a
   * `foreach` over null visits nothing, so with a ContactGuid the call goes
   * straight to submission and posts an empty list of lines.
   */
  lemma UnsetLinesPostEmpty(cl: Client, net: Net, env: Env, inv: I.Invoice, book: bool)
    requires Truthy(I.Get(inv, I.ContactGuid)) && inv.productLines.None?
    ensures I.LinesOf(inv) == [] && LinesCheck(I.LinesOf(inv)).None?
    ensures var r := CreateInvoice(cl, net, env, inv, None, book);
      var s := Submit(cl, net, env, inv, book);
      && r.result == s.result && r.net == s.net && r.caller == inv
      && s.net == Submit(cl, net, env, I.SetProductLines(inv, []), book).net
  {
    var e := I.SetProductLines(inv, []);
    assert e.details == inv.details && I.LinesOf(e) == I.LinesOf(inv);
  }

  /**
   * Find-or-create, as the caller's invoice sees it: for a contact without a
   * truthy GUID, a single search match supplies the invoice's ContactGuid and
   * nothing more is sent for the contact; no match creates the contact, with
   * exactly one `createContact`, and its new GUID is used (a failed creation
   * fails the call and leaves the invoice as it was); several matches raise
   * right after the search.
   */
  lemma LookupDecidesContact(cl: Client, net: Net, env: Env, inv: I.Invoice, c: C.Contact, book: bool)
    requires !Truthy(C.GetContactGuid(c))
    requires FindContact(cl, net, env, LookupFilter(c)).result.Ok?
    ensures var f := FindContact(cl, net, env, LookupFilter(c));
      var found := f.result.value;
      var r := CreateInvoice(cl, net, env, inv, Some(c), book);
      var a := AttachContact(cl, net, env, inv, Some(c));
      && (|found| == 1 ==>
            && I.Get(r.caller, I.ContactGuid) == C.GetContactGuid(found[0])
            && a.client == f.client && a.net == f.net)
      && (|found| > 1 ==> r.result == Err(MultipleContacts) && r.caller == inv && r.net == f.net)
      && (|found| == 0 ==>
            var made := CreateContact(f.client, f.net, env, c);
            && a.client == made.client && a.net == made.net
            && (made.result.Ok? ==> I.Get(r.caller, I.ContactGuid) == Str(made.result.value.guid.value))
            && (made.result.Err? ==> r.result == Err(made.result.error) && r.caller == inv))
  {
    var a := AttachContact(cl, net, env, inv, Some(c));
    assert CreateInvoice(cl, net, env, inv, Some(c), book) == CheckAndSubmit(inv, a, env, book);
  }
}
