/**
 * The exceptions the SDK can raise, as values.
 *
 * MultipleContacts, GuidImmutable and TransportFailure are all raised as the
 * plain DineroException class; they are separate constructors here only so
 * that the model can say which check raised them.
 */
module Exceptions {

  datatype Error =
    /** DineroMissingConfigException naming the configuration key. */
    | MissingConfig(key: string)
    /** DineroMissingParameterException naming the missing entity field. */
    | MissingParameter(name: string)
    /** DineroAuthenticationFailedException: the token reply had no access_token. */
    | AuthenticationFailed
    /** DineroException: more than one contact matched a find-or-create lookup. */
    | MultipleContacts
    /** DineroException: an identity setter was called after entity creation. */
    | GuidImmutable
    /** The transport's exception for a reply with an error status, passed through. */
    | HttpFailure(status: int)
    /** DineroException: the transport obtained no reply at all. */
    | TransportFailure
    /** DateInterval rejects the interval built from a negative expires_in. */
    | BadInterval
    /** TypeError: null passed where a `string` parameter is declared. */
    | TypeError

  /** The exceptions obtaining a token or making a request can raise. */
  predicate RequestFailure(e: Error)
  {
    e.AuthenticationFailed? || e.HttpFailure? || e.TransportFailure? || e.BadInterval?
  }
}
