/**
 * The InvoiceLine entity: a record of six public properties with plain
 * setters and getters and no identity of its own.
 */
module InvoiceLineEntity {
  import opened Php

  datatype LineField = Description | Comments | BaseAmountValue | Quantity | AccountNumber | Unit

  /** Every property starts as null. BaseAmountValue is opaque: only its truthiness matters. */
  datatype InvoiceLine = InvoiceLine(
    description: Value, comments: Value, baseAmountValue: Value,
    quantity: Value, accountNumber: Value, unit: Value)

  /** `new InvoiceLine()`. */
  function New(): (l: InvoiceLine)
    ensures forall f :: Get(l, f) == Null
  {
    InvoiceLine(Null, Null, Null, Null, Null, Null)
  }

  function Get(l: InvoiceLine, f: LineField): Value
  {
    match f
    case Description => l.description
    case Comments => l.comments
    case BaseAmountValue => l.baseAmountValue
    case Quantity => l.quantity
    case AccountNumber => l.accountNumber
    case Unit => l.unit
  }

  /** A setter: stores its argument verbatim and touches no other property. */
  function Set(l: InvoiceLine, f: LineField, v: Value): (r: InvoiceLine)
    ensures Get(r, f) == v
    ensures forall g | g != f :: Get(r, g) == Get(l, g)
  {
    match f
    case Description => l.(description := v)
    case Comments => l.(comments := v)
    case BaseAmountValue => l.(baseAmountValue := v)
    case Quantity => l.(quantity := v)
    case AccountNumber => l.(accountNumber := v)
    case Unit => l.(unit := v)
  }
}
