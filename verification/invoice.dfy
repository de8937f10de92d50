/**
 * The Invoice entity: a server-assigned Guid that can only be attached by
 * copying, public scalar properties with plain setters (ContactGuid among
 * them, mutable in place), and the ordered product lines.
 */
module InvoiceEntity {
  import opened Base
  import opened Exceptions
  import opened Php
  import opened InvoiceLineEntity

  /** The public scalar properties of an invoice. */
  datatype InvoiceField =
    | PaymentConditionNumberOfDays | PaymentConditionType | ContactGuid | Currency
    | Language | ExternalReference | Description | Comment | Date | Address

  datatype Details = Details(
    paymentConditionNumberOfDays: Value, paymentConditionType: Value, contactGuid: Value,
    currency: Value, language: Value, externalReference: Value, description: Value,
    comment: Value, date: Value, address: Value)

  /**
   * The protected Guid (null until the server assigns one), the scalar
   * properties, and ProductLines (null until set).
   */
  datatype Invoice = Invoice(guid: Option<string>, details: Details, productLines: Option<seq<InvoiceLine>>)

  /** `new Invoice()`: every property null. */
  function New(): (i: Invoice)
    ensures i.guid.None? && i.productLines.None?
    ensures forall f :: Get(i, f) == Null
  {
    Invoice(None, Details(Null, Null, Null, Null, Null, Null, Null, Null, Null, Null), None)
  }

  /** `withGuid`: a copy carrying the Guid; the receiver is a value and stays as it was. */
  function WithGuid(i: Invoice, guid: string): (r: Invoice)
    ensures r.guid == Some(guid)
    ensures forall f :: Get(r, f) == Get(i, f)
    ensures r.productLines == i.productLines
  {
    i.(guid := Some(guid))
  }

  /**
   * `setGuid`: always throws; the receiver's state after the call is
   * returned alongside the exception.
   */
  function SetGuid(i: Invoice, guid: Value): (r: (Invoice, Result<(), Error>))
    ensures r.0 == i
    ensures r.1.Err? && r.1.error == GuidImmutable
  {
    (i, Err(GuidImmutable))
  }

  function Get(i: Invoice, f: InvoiceField): Value
  {
    var d := i.details;
    match f
    case PaymentConditionNumberOfDays => d.paymentConditionNumberOfDays
    case PaymentConditionType => d.paymentConditionType
    case ContactGuid => d.contactGuid
    case Currency => d.currency
    case Language => d.language
    case ExternalReference => d.externalReference
    case Description => d.description
    case Comment => d.comment
    case Date => d.date
    case Address => d.address
  }

  /** A setter: stores its argument verbatim and touches nothing else. */
  function Set(i: Invoice, f: InvoiceField, v: Value): (r: Invoice)
    ensures Get(r, f) == v
    ensures forall g | g != f :: Get(r, g) == Get(i, g)
    ensures r.guid == i.guid && r.productLines == i.productLines
  {
    var d := i.details;
    var d' := match f
      case PaymentConditionNumberOfDays => d.(paymentConditionNumberOfDays := v)
      case PaymentConditionType => d.(paymentConditionType := v)
      case ContactGuid => d.(contactGuid := v)
      case Currency => d.(currency := v)
      case Language => d.(language := v)
      case ExternalReference => d.(externalReference := v)
      case Description => d.(description := v)
      case Comment => d.(comment := v)
      case Date => d.(date := v)
      case Address => d.(address := v);
    i.(details := d')
  }

  /** `setContactGuid`: unlike Contact's, an ordinary in-place setter. */
  function SetContactGuid(i: Invoice, contactGuid: Value): (r: Invoice)
    ensures Get(r, ContactGuid) == contactGuid
    ensures forall g | g != ContactGuid :: Get(r, g) == Get(i, g)
    ensures r.guid == i.guid && r.productLines == i.productLines
  {
    Set(i, ContactGuid, contactGuid)
  }

  /** `setProductLines`. */
  function SetProductLines(i: Invoice, lines: seq<InvoiceLine>): (r: Invoice)
    ensures r.productLines == Some(lines)
    ensures r.guid == i.guid && r.details == i.details
  {
    i.(productLines := Some(lines))
  }

  /** The lines a `foreach` over `getProductLines()` visits: none when ProductLines is null. */
  function LinesOf(i: Invoice): seq<InvoiceLine>
  {
    match i.productLines
    case None => []
    case Some(ls) => ls
  }

  /** The lines read back are the lines set, in the same order. */
  lemma ProductLinesRoundTrip(i: Invoice, lines: seq<InvoiceLine>)
    ensures LinesOf(SetProductLines(i, lines)) == lines
    ensures forall k | 0 <= k < |lines| :: LinesOf(SetProductLines(i, lines))[k] == lines[k]
  {
  }
}
