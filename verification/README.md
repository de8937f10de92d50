# Dinero SDK client, modelled in Dafny

This project models the core of the DineroSDK PHP client for the Dinero accounting API. It covers:

- the `Dinero` facade: configuration checks, the OAuth access-token cache, the authorised `send`, contact creation and search, the find-or-create contact resolution inside `createInvoice`, invoice creation with optional booking, and invoice e-mail;
- the three entities it works on: `Contact`, `Invoice` and `InvoiceLine`.

Modules, one per file:

| module | file | what it holds |
|---|---|---|
| `Base` | base.dfy | `Option`, `Result`, and `FirstFailing`, the fail-fast scan that each chain of `if (!…) throw` checks follows |
| `Exceptions` | exceptions.dfy | the SDK's exceptions as one `Error` datatype |
| `Php` | php.dfy | PHP scalars, truthiness, the `(bool)`/`(int)`/string casts, `strtoupper`, `implode` and `explode` |
| `PhpArray` | php_array.dfy | ordered string-keyed arrays: `$a[$k] = $v`, `array_replace` and `array_merge` |
| `ContactEntity` | contact.dfy | `Contact` |
| `InvoiceLineEntity` | invoice_line.dfy | `InvoiceLine` |
| `InvoiceEntity` | invoice.dfy | `Invoice` |
| `Transport` | transport.dfy | endpoints, request payloads, and the HTTP client as a scripted oracle that logs every request |
| `Dinero` | dinero.dfy | the client |

How the PHP maps onto the model:

- An operation takes the client's state, the transport oracle (`Net`: the replies still to come and the log of requests made), and the environment (`Env`: the clock in seconds and base64 encoding).
- It returns its outcome together with the new client and transport states.
- A thrown exception is an `Err` outcome. State changed before the throw is kept, such as a refreshed token or requests already sent.
- `createInvoice` also returns the caller's invoice as the call leaves it, because PHP sets its ContactGuid in place.

## Model

| member | source | states |
|---|---|---|
| Dinero.ValidateConfig | src/DineroSDK/Dinero.php:96-113 | no error exactly when client_id, client_secret, api_key and organization_id are all set and non-empty; otherwise the missing-config error names the first of them, in that order, that is not |
| Dinero.NewClient | src/DineroSDK/Dinero.php:74-90 | construction fails exactly when a mandatory key is missing, with the validation error; otherwise the client holds the four settings and email_settings (empty when absent), and no token yet |
| Dinero.GetAccessToken | src/DineroSDK/Dinero.php:311-337 | a cached token that is truthy and not expired is returned with no request; otherwise exactly one token request is made; a reply without access_token raises authentication failure; a negative (int)expires_in makes `DateInterval` raise; otherwise the exchange caches the token and now + (int)expires_in; a failure leaves the cache unchanged; the exchange consumes exactly its one scripted reply, and a fresh token leaves the transport untouched |
| Dinero.TokenCache | src/DineroSDK/Dinero.php:313-336 | after a successful call, a second call exchanges credentials again exactly when the token is falsy or its expiry is strictly before the new time; otherwise it returns the same token and sends nothing |
| Dinero.TokenExpiringNowIsReused | src/DineroSDK/Dinero.php:315 | a token that expires exactly now is still used, since the expiry check is a strict `<` |
| Dinero.EmptyTokenIsNeverReused | src/DineroSDK/Dinero.php:315-333 | an exchange that returns an empty access_token succeeds and caches it, but the cached token counts as absent, so the next call exchanges again |
| Dinero.TokenRequestForm | src/DineroSDK/Dinero.php:316-323 | `TokenRequest`: a post to the OAuth token URL with HTTP Basic credentials, the base64 of client id ':' client secret, and a form-urlencoded content type |
| Dinero.TokenRequestBody | src/DineroSDK/Dinero.php:321 | when the API key holds no '&', the form splits at '&' into exactly grant_type=password, scope=read write, and the API key as both username and password |
| Dinero.MissingTokenLeavesCache | src/DineroSDK/Dinero.php:326-328 | a token reply without access_token raises authentication failure after exactly one request and leaves the cache as it was |
| Dinero.Send | src/DineroSDK/Dinero.php:297-304 | a token failure is raised with no API request; otherwise exactly one API request follows, to the organisation's resource with the bearer headers, and its reply, consumed from the transport, decides the outcome; every failure is a request failure |
| Dinero.SendRequests | src/DineroSDK/Dinero.php:297-304 | `send` makes at least one request: a token exchange when the cache is stale, then the API request unless the exchange failed, and nothing else |
| Dinero.SendCount | src/DineroSDK/Dinero.php:297-304 | for any kind of request that no token exchange belongs to, `send` makes one such request exactly when it got a token and its API request is of that kind |
| Dinero.RequestHeaders | src/DineroSDK/Dinero.php:299-302 | Authorization is the bearer token and Content-Type is JSON unless the caller overrides them; the caller's other headers are added; the default keys stay first |
| Dinero.SendInvoiceEmail | src/DineroSDK/Dinero.php:279-285 | exactly the one `send` of the merged settings to the invoice's e-mail resource; it succeeds exactly when that send does and discards the reply |
| Dinero.EmailSettingsMerge | src/DineroSDK/Dinero.php:282 | every key the caller gives takes the caller's value; every other key takes the configured default; the defaults' keys keep their order at the front |
| Dinero.EmailSettingsExample | src/DineroSDK/Dinero.php:282 | defaults {subject: Y, cc: a@b.com} under {subject: X} give {subject: X, cc: a@b.com} |
| Dinero.CreateContactCheck | src/DineroSDK/Dinero.php:124-134 | no error exactly when Name, IsPerson and CountryKey are all truthy through their getters; otherwise the first falsy one in that order |
| Dinero.CreateContact | src/DineroSDK/Dinero.php:119-142 | a falsy required property raises a missing-parameter error naming it and sends nothing; otherwise one `send` posts the profile; a null ContactGuid in the reply is a type error; success is a copy of the contact with the reply's ContactGuid and an unchanged profile |
| Dinero.CreateContactRequests | src/DineroSDK/Dinero.php:119-142 | `createContact` sends nothing exactly when a required property is falsy, and otherwise talks only to the token endpoint and the organisation's contacts |
| Dinero.CreateContactRejectsCompany | src/DineroSDK/Dinero.php:128-130 | a named contact whose IsPerson is false is never created: the call fails naming IsPerson, and nothing is sent |
| Dinero.FindContact | src/DineroSDK/Dinero.php:148-182 | one GET of the contact search; a failed send is raised; otherwise one contact per entry of the reply's Collection, in order |
| Dinero.SearchFilterEntries | src/DineroSDK/Dinero.php:150-157 | the IsPerson rewrite keeps every filter entry in its place; only a non-null IsPerson changes, to 'true' or 'false' by its truthiness |
| Dinero.QueryClauses | src/DineroSDK/Dinero.php:150-164 | `QueryFilter`: the query has one `key eq 'value'` condition per filter entry, in the filter's order, with IsPerson rewritten |
| Dinero.QueryRoundTrip | src/DineroSDK/Dinero.php:150-165 | `QueryFilter`: when no key or value contains ';', splitting the query at ';' gives back exactly the conditions, and the query holds one ';' fewer than there are entries |
| Dinero.QueryNotInjective | src/DineroSDK/Dinero.php:163-165 | values are inserted without escaping, so a value containing `'` and `;` yields the same query as a filter with one more entry |
| Dinero.FoundContact | src/DineroSDK/Dinero.php:175-176 | a found contact's GUID is the entry's ContactGuid, or none when the entry has none |
| Dinero.FoundContactProperties | src/DineroSDK/Dinero.php:174-179 | each property of a found contact holds what its setter stores for the entry's value under the property's name (ZipCode under "Zipcode"), or null when the entry lacks it |
| Dinero.Hydrate | src/DineroSDK/Dinero.php:173-178 | hydrating never changes the contact's GUID, nor any property outside the listed fields |
| Dinero.HydrateProperty | src/DineroSDK/Dinero.php:177 | hydration sets a listed property through its setter from the entry's value and leaves every other property alone |
| Dinero.LookupFilterContents | src/DineroSDK/Dinero.php:203-222 | `LookupFilter`: the lookup filter has no key twice, and holds a lookup property's getter value under its name exactly when that value is truthy |
| Dinero.LookupPrefixAppends | src/DineroSDK/Dinero.php:205-222 | each truthy lookup property is appended after those before it, in the order ExternalReference, Name, VatNumber, EanNumber, IsPerson, Email |
| Dinero.LookupIsPerson | src/DineroSDK/Dinero.php:217-224 | a person is searched for with IsPerson eq 'true'; for a non-person the filter has no IsPerson entry, so the search never asks for 'false' |
| Dinero.ResolveContactOutcome | src/DineroSDK/Dinero.php:199-237 | `ResolveContact`: a contact with a truthy GUID is used as it is, with nothing sent; otherwise a resolved contact is the search's only match, or, when nothing matched, a created copy with the same profile and a GUID; ambiguity is raised exactly when the search finds several matches; after the search, a single match or several matches send nothing more, a failed search is passed on as it is, and no match makes exactly one `createContact` and returns its outcome; only contact traffic is sent |
| Dinero.AttachContactFrame | src/DineroSDK/Dinero.php:199-238 | `AttachContact`: without a contact the invoice is used unchanged; with one, the stage fails exactly when resolution fails, with its error; on success only the invoice's ContactGuid changes, to the resolved contact's GUID |
| Dinero.ResolveContactRequests | src/DineroSDK/Dinero.php:199-237 | resolving a contact talks only to the token endpoint and the organisation's contacts |
| Dinero.AttachContactRequests | src/DineroSDK/Dinero.php:199-238 | the contact stage of `createInvoice` posts no invoice and books nothing |
| Dinero.KnownContactSkipsLookup | src/DineroSDK/Dinero.php:199-201 | a contact with a truthy GUID is not looked up: nothing is sent, and the invoice's ContactGuid becomes that GUID, overwriting what the caller's invoice held |
| Dinero.LookupDecidesContact | src/DineroSDK/Dinero.php:224-236 | without a GUID, a single match supplies the invoice's ContactGuid and the contact stage leaves client and transport as the search left them; no match makes exactly one `createContact` and uses its new GUID, or fails as the creation fails and leaves the invoice as it was; several matches raise, and the call stops right after the search |
| Dinero.SearchPath | src/DineroSDK/Dinero.php:159-170 | a contact search goes to https://api.dinero.dk/v1/, then the organisation, then `/contacts?queryFilter=`, the filter, `&fields=` and the field list |
| Dinero.SearchUrl | src/DineroSDK/Dinero.php:159-170 | the search made by `getContacts` carries the built query filter and the fixed field list; an empty filter gives an empty queryFilter parameter |
| Dinero.BookUrl | src/DineroSDK/Dinero.php:267-269 | booking posts to https://api.dinero.dk/v1/, the organisation, `/invoices/`, the invoice's GUID and `/book` |
| Dinero.AmbiguousContactPostsNothing | src/DineroSDK/Dinero.php:226-231 | several matches fail the call with the ambiguity right after the search, and leave the caller's invoice as it was |
| Dinero.LineCheck | src/DineroSDK/Dinero.php:245-259 | a line passes exactly when Unit, Quantity, Description, BaseAmountValue and AccountNumber are all truthy; otherwise the first falsy one in that order |
| Dinero.LinesCheck | src/DineroSDK/Dinero.php:244-261 | the lines pass exactly when every line does; otherwise the first failing line and its first missing property |
| Dinero.FreshLineMissesUnit | src/DineroSDK/Dinero.php:245-247 | a new line fails for Unit, the first property checked |
| Dinero.CommentsNotRequired | src/DineroSDK/Dinero.php:244-261 | setting Comments never changes the outcome of a line check |
| Dinero.IncompleteLineFails | src/DineroSDK/Dinero.php:240-261 | an incomplete line fails the call naming the first missing property of the first incomplete line; nothing is sent after the contact stage; the caller's invoice already carries the resolved ContactGuid |
| Dinero.UnsetLinesPostEmpty | src/DineroSDK/Dinero.php:243-265 | `LinesOf`: an invoice whose ProductLines was never set has no lines to check, so with a ContactGuid the call goes straight to submission, posting an empty list of lines |
| Dinero.FreshLineRejected | src/DineroSDK/Dinero.php:195-261 | an invoice with a ContactGuid whose only line is new fails for Unit, sends nothing, and is left unchanged |
| Dinero.Submit | src/DineroSDK/Dinero.php:265-272 | a failed post is raised with nothing further sent, and no booking is made; after a successful post, the booking follows only when asked, built from that post's reply; success is a copy of the invoice carrying the post reply's Guid; a null Guid is a type error; every failure is a request failure or a type error |
| Dinero.PostRequests | src/DineroSDK/Dinero.php:265 | posting sends no booking, and exactly one invoice post when a token is obtained and none otherwise; a successful post is the last request, to the organisation's invoices, carrying the invoice's properties and lines |
| Dinero.BookRequests | src/DineroSDK/Dinero.php:267-270 | `BookIfAsked`: booking posts no invoice; it books once when asked and never otherwise; a successful booking is a request to book the post reply's Guid, with that reply's TimeStamp as Timestamp |
| Dinero.SubmitRequests | src/DineroSDK/Dinero.php:265-270 | submission posts the invoice exactly once when a token is obtained and never otherwise, and books at most once, only when asked; on success exactly one post, and exactly one booking when asked |
| Dinero.SubmitSends | src/DineroSDK/Dinero.php:263-272 | a successful submission has posted the invoice's properties and lines, and returns the Guid of that post's reply; when asked to book, its last request books that Guid with the reply's TimeStamp |
| Dinero.CreateInvoice | src/DineroSDK/Dinero.php:191-273 | an invoice without a truthy ContactGuid and no contact fails with nothing sent and nothing changed; otherwise a failed contact stage ends the call with its error, client and transport and the caller's invoice unchanged, a failing line ends it with a missing parameter and no further traffic, and once every line passes the outcome, token cache and transport are exactly those of submitting the attached invoice; success means the contact stage succeeded, every line passed, and the invoice post succeeded; the result is the caller's invoice carrying that post reply's Guid |
| Dinero.CreateInvoiceRequests | src/DineroSDK/Dinero.php:191-273 | `createInvoice` posts at most one invoice and books at most once, only when asked; on success exactly one post, and one booking when asked; nothing is posted or booked unless the contact resolves and every line passes, and when they do the invoice is posted exactly once if a token is obtained |
| Dinero.CheckAndSubmit | src/DineroSDK/Dinero.php:243-272 | after the contact stage: its failure is returned as it is; the first incomplete line raises its missing field with the contact stage's client and transport; otherwise the outcome, client and transport are those of submission, and the caller keeps the attached invoice |
| Dinero.FailedInvoicePostsNothing | src/DineroSDK/Dinero.php:195-261 | a call that fails for a missing parameter or an ambiguous contact has posted no invoice and booked nothing |
| ContactEntity.New | src/DineroSDK/Entity/Contact.php:125-128 | a new contact carries the given GUID, or none, and every property is null |
| ContactEntity.WithContactGuid | src/DineroSDK/Entity/Contact.php:134-140 | the copy carries the new GUID and the same properties |
| ContactEntity.GetContactGuid | src/DineroSDK/Entity/Contact.php:145-148 | null exactly when the contact has no GUID, otherwise the GUID |
| ContactEntity.SetContactGuid | src/DineroSDK/Entity/Contact.php:153-156 | always raises, and the contact is unchanged |
| ContactEntity.Get | src/DineroSDK/Entity/Contact.php:385-388 | every getter returns the stored value, except that getIsPerson returns a bool equal to the stored value's truthiness |
| ContactEntity.Set | src/DineroSDK/Entity/Contact.php:169-396 | a setter stores into its own property only: the upper-cased string for CountryKey, the bool cast for IsPerson, the argument itself otherwise; the GUID and every other property are unchanged |
| ContactEntity.PlainSetGet | src/DineroSDK/Entity/Contact.php:161-188 | every setter other than CountryKey's and IsPerson's gives back its argument through the getter |
| ContactEntity.CountryKeySetGet | src/DineroSDK/Entity/Contact.php:241-252 | getCountryKey returns the upper-cased string form of what was set |
| ContactEntity.CountryKeyNormalised | src/DineroSDK/Entity/Contact.php:249-252 | setting the country key to what its getter returns changes nothing |
| ContactEntity.IsPersonSetGet | src/DineroSDK/Entity/Contact.php:385-396 | setIsPerson stores, and getIsPerson returns, a bool equal to the argument's truthiness |
| InvoiceEntity.New | src/DineroSDK/Entity/Invoice.php:29-98 | a new invoice has no Guid and no product lines, and every property is null |
| InvoiceEntity.WithGuid | src/DineroSDK/Entity/Invoice.php:104-110 | the copy carries the new Guid and the same properties and lines |
| InvoiceEntity.SetGuid | src/DineroSDK/Entity/Invoice.php:123-126 | always raises, and the invoice is unchanged |
| InvoiceEntity.Set | src/DineroSDK/Entity/Invoice.php:131-302 | a setter stores its argument as given into its own property only; the Guid and lines are unchanged |
| InvoiceEntity.SetContactGuid | src/DineroSDK/Entity/Invoice.php:171-174 | unlike Contact's, an ordinary setter: ContactGuid becomes the argument and nothing else changes |
| InvoiceEntity.SetProductLines | src/DineroSDK/Entity/Invoice.php:283-286 | the lines become the argument, and the Guid and properties are unchanged |
| InvoiceEntity.ProductLinesRoundTrip | src/DineroSDK/Entity/Invoice.php:275-286 | the lines read back are the lines set, in the same order |
| InvoiceLineEntity.New | src/DineroSDK/Entity/InvoiceLine.php:28-56 | every property of a new line is null |
| InvoiceLineEntity.Set | src/DineroSDK/Entity/InvoiceLine.php:61-152 | a setter stores its argument as given into its own property only |
| Php.BoolCast | src/DineroSDK/Entity/Contact.php:385-396 | `(bool)` yields a bool that is true exactly when its argument is truthy |
| Php.StrToUpperIdempotent | src/DineroSDK/Entity/Contact.php:249-252 | `strtoupper` applied twice gives what it gives once |
| Php.TextKeepsTruthiness | src/DineroSDK/Dinero.php:163 | a value's string form, as concatenated into a condition, has the value's truthiness |
| Php.IntCastOfDecimal | src/DineroSDK/Dinero.php:330 | `(int)` of an integer's decimal string gives back the integer |
| Php.IntCastOfText | src/DineroSDK/Dinero.php:330 | `(int)` of a value agrees with `(int)` of its string form |
| Php.ExplodeImplode | src/DineroSDK/Dinero.php:165 | when no piece contains the glue character, splitting the imploded pieces gives back exactly the pieces |
| Php.ImplodeSeparatorCount | src/DineroSDK/Dinero.php:165 | imploding n glue-free pieces inserts n - 1 glue characters |
| PhpArray.PutGet | src/DineroSDK/Dinero.php:206-221 | after `$a[$k] = $v`, `$k` holds `$v` and every other key holds what it held |
| PhpArray.PutExisting | src/DineroSDK/Dinero.php:152-154 | assigning to an existing key replaces that entry in place |
| PhpArray.ReplaceGet | src/DineroSDK/Dinero.php:282 | `array_replace` gives the override's value for its keys and the base's value for the others |
| PhpArray.ReplaceKeys | src/DineroSDK/Dinero.php:299-302 | the merged array lists the base's keys first, in their order |

## Left out

- The HTTP transport (`GuzzleClient`, `DineroResponse`, timeouts) is replaced by the scripted oracle. A reply is a decoded body, an error status or no answer. The status-code handling and JSON decoding of `DineroResponse` are not part of this model.
- JSON encoding: request bodies stay structured values (`Payload`), not strings.
- The Zend hydrators: extraction is the entity's profile. Hydration calls the setter of each property under the key the search's `fields` list spells, so "Zipcode" reaches `setZipCode` through PHP's case-insensitive method lookup. Other spellings or extra keys a server might send are not modelled.
- The clock and `base64_encode` are `Env` parameters. The clock is read once per operation and counted in whole seconds; `DateInterval` is modelled only as far as a negative interval failing.
- The constructor's optional HTTP client parameter is not modelled: requests always go to the oracle. As written, the constructor stores a client only when none is passed (src/DineroSDK/Dinero.php:86-89).
- `email_settings` is taken to be an array. The `(array)` cast of a scalar setting is not modelled.
- `array_merge` and `array_replace` are modelled for string keys only; both are used only with string keys. Numeric-key renumbering is left out.
- `(int)` is modelled for decimal strings with optional leading whitespace and sign. Exponent and float strings, floats, and integer overflow are not modelled.
- `InvoiceLine.BaseAmountValue` and the money library: only the value's truthiness matters to the client, so it is an ordinary scalar here.
- The exception messages are not modelled, only which exception is raised and with which parameter or key name.
- Concurrency: the token cache is modelled for one caller at a time.
- Dinero.CreateInvoice: its `book` argument is a Dafny bool. PHP tests it by truthiness (src/DineroSDK/Dinero.php:267), so other truthy or falsy values a caller could pass are not modelled.
- Dinero.FindContact: a reply without a `Collection` is treated as an empty list. In PHP, iterating over null emits a warning and yields nothing, so the outcome is the same.

Behaviours a reader may not expect, which the model follows as written:

- A cached token is reused while its expiry is not strictly before now. A token that expires exactly now is still used.
- The query filter is neither escaped nor URL-encoded.
- `createContact` rejects a contact whose IsPerson is false, because the check is on the getter's truthiness.
- Several search matches raise a plain `DineroException`.
- The caller's invoice is modified (its ContactGuid is set) before the product lines are checked, even when the call then fails.
