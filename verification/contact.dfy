/**
 * The Contact entity: a server-assigned GUID that can only be attached by
 * copying, and a bag of public profile properties with plain setters, except
 * that CountryKey is upper-cased and IsPerson is cast to bool on the way in.
 */
module ContactEntity {
  import opened Base
  import opened Exceptions
  import opened Php

  /** The public properties of a contact. */
  datatype ContactField =
    | ExternalReference | Name | Street | ZipCode | City | CountryKey | Phone | Email
    | Webpage | AttPerson | VatNumber | EanNumber | PaymentConditionType
    | PaymentConditionNumberOfDays | IsPerson

  /** The values of the public properties; a property with no default starts as null. */
  datatype Profile = Profile(
    externalReference: Value, name: Value, street: Value, zipCode: Value, city: Value,
    countryKey: Value, phone: Value, email: Value, webpage: Value, attPerson: Value,
    vatNumber: Value, eanNumber: Value, paymentConditionType: Value,
    paymentConditionNumberOfDays: Value, isPerson: Value)

  /** The protected ContactGuid (null until the server assigns one) and the profile. */
  datatype Contact = Contact(guid: Option<string>, profile: Profile)

  const AllFields: seq<ContactField> := [
    ExternalReference, Name, Street, ZipCode, City, CountryKey, Phone, Email,
    Webpage, AttPerson, VatNumber, EanNumber, PaymentConditionType,
    PaymentConditionNumberOfDays, IsPerson]

  const EmptyProfile := Profile(
    Null, Null, Null, Null, Null, Null, Null, Null, Null, Null, Null, Null, Null, Null, Null)

  /** `getContactGuid`: null until a GUID is attached. */
  function GetContactGuid(c: Contact): (v: Value)
    ensures v.Null? <==> c.guid.None?
    ensures c.guid.Some? ==> v == Str(c.guid.value)
  {
    match c.guid
    case None => Null
    case Some(g) => Str(g)
  }

  /** The property's stored value, as extraction of public properties sees it. */
  function Property(c: Contact, f: ContactField): Value
  {
    var p := c.profile;
    match f
    case ExternalReference => p.externalReference
    case Name => p.name
    case Street => p.street
    case ZipCode => p.zipCode
    case City => p.city
    case CountryKey => p.countryKey
    case Phone => p.phone
    case Email => p.email
    case Webpage => p.webpage
    case AttPerson => p.attPerson
    case VatNumber => p.vatNumber
    case EanNumber => p.eanNumber
    case PaymentConditionType => p.paymentConditionType
    case PaymentConditionNumberOfDays => p.paymentConditionNumberOfDays
    case IsPerson => p.isPerson
  }

  /** The setters that store their argument as given. */
  predicate Plain(f: ContactField)
  {
    f != CountryKey && f != IsPerson
  }

  /** `new Contact($guid)`. */
  function New(guid: Option<string>): (c: Contact)
    ensures c.guid == guid
    ensures forall f :: Property(c, f) == Null
  {
    Contact(guid, EmptyProfile)
  }

  /** `withContactGuid`: a copy carrying the GUID; the receiver is a value and stays as it was. */
  function WithContactGuid(c: Contact, guid: string): (r: Contact)
    ensures r.guid == Some(guid)
    ensures forall f :: Property(r, f) == Property(c, f)
  {
    c.(guid := Some(guid))
  }

  /**
   * `setContactGuid`: always throws; the receiver's state after the call is
   * returned alongside the exception.
   */
  function SetContactGuid(c: Contact, guid: Value): (r: (Contact, Result<(), Error>))
    ensures r.0 == c
    ensures r.1.Err? && r.1.error == GuidImmutable
  {
    (c, Err(GuidImmutable))
  }

  /** The getter of a property: every getter returns the stored value, except that `getIsPerson` casts it to bool. */
  function Get(c: Contact, f: ContactField): (v: Value)
    ensures f != IsPerson ==> v == Property(c, f)
    ensures f == IsPerson ==> v.Bool? && (v.b <==> Truthy(Property(c, IsPerson)))
  {
    if f == IsPerson then BoolCast(Property(c, f)) else Property(c, f)
  }

  /**
   * What the setter of `f` stores for the argument `v`: the upper-cased
   * string form for CountryKey, the bool cast for IsPerson, `v` itself otherwise.
   */
  function Stored(f: ContactField, v: Value): Value
  {
    if f == CountryKey then Str(StrToUpper(ToText(v)))
    else if f == IsPerson then BoolCast(v)
    else v
  }

  /** The setter of a property: stores into `f` and leaves the GUID and every other property alone. */
  function Set(c: Contact, f: ContactField, v: Value): (r: Contact)
    ensures Property(r, f) == Stored(f, v)
    ensures r.guid == c.guid
    ensures forall g | g != f :: Property(r, g) == Property(c, g)
  {
    var p := c.profile;
    var p' := match f
      case ExternalReference => p.(externalReference := v)
      case Name => p.(name := v)
      case Street => p.(street := v)
      case ZipCode => p.(zipCode := v)
      case City => p.(city := v)
      case CountryKey => p.(countryKey := Str(StrToUpper(ToText(v))))
      case Phone => p.(phone := v)
      case Email => p.(email := v)
      case Webpage => p.(webpage := v)
      case AttPerson => p.(attPerson := v)
      case VatNumber => p.(vatNumber := v)
      case EanNumber => p.(eanNumber := v)
      case PaymentConditionType => p.(paymentConditionType := v)
      case PaymentConditionNumberOfDays => p.(paymentConditionNumberOfDays := v)
      case IsPerson => p.(isPerson := BoolCast(v));
    c.(profile := p')
  }

  // ---------------------------------------------------------------------------
  // Lemmas

  lemma AllFieldsComplete(f: ContactField)
    ensures f in AllFields
  {
    match f
    case ExternalReference => assert AllFields[0] == f;
    case Name => assert AllFields[1] == f;
    case Street => assert AllFields[2] == f;
    case ZipCode => assert AllFields[3] == f;
    case City => assert AllFields[4] == f;
    case CountryKey => assert AllFields[5] == f;
    case Phone => assert AllFields[6] == f;
    case Email => assert AllFields[7] == f;
    case Webpage => assert AllFields[8] == f;
    case AttPerson => assert AllFields[9] == f;
    case VatNumber => assert AllFields[10] == f;
    case EanNumber => assert AllFields[11] == f;
    case PaymentConditionType => assert AllFields[12] == f;
    case PaymentConditionNumberOfDays => assert AllFields[13] == f;
    case IsPerson => assert AllFields[14] == f;
  }

  /** A plain setter stores its argument verbatim and the getter returns it. */
  lemma PlainSetGet(c: Contact, f: ContactField, v: Value)
    requires Plain(f)
    ensures Get(Set(c, f, v), f) == v
  {
  }

  /** `setCountryKey` stores the upper-cased string form of its argument. */
  lemma CountryKeySetGet(c: Contact, v: Value)
    ensures Get(Set(c, CountryKey, v), CountryKey) == Str(StrToUpper(ToText(v)))
  {
  }

  /** Setting the country key to what the getter already returns changes nothing. */
  lemma CountryKeyNormalised(c: Contact, v: Value)
    ensures var c' := Set(c, CountryKey, v); Set(c', CountryKey, Get(c', CountryKey)) == c'
  {
    StrToUpperIdempotent(ToText(v));
  }

  /** `setIsPerson` stores a bool equal to its argument's truthiness. */
  lemma IsPersonSetGet(c: Contact, v: Value)
    ensures Property(Set(c, IsPerson, v), IsPerson) == Bool(Truthy(v))
    ensures Get(Set(c, IsPerson, v), IsPerson) == Bool(Truthy(v))
  {
  }
}
