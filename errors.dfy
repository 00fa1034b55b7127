/** The failures the blob store's operations can end with, one per exception the source throws. */
module Errors {

  datatype Error =
    /** ResourceNotFoundException: the identifier is unknown to the store consulted. */
    | NotFound(identifier: string)
    /** ResourcePersistenceException: an IOException while the content was being written. */
    | PersistenceFailure(identifier: string)
    /** ResourceRetrievalException: the content file exists but could not be opened. */
    | RetrievalFailure(identifier: string)
    /** IllegalArgumentException: the servlet container cannot enumerate header names. */
    | HeaderNamesUnsupported
    /** IllegalStateException from build(): the named required key is missing. */
    | MissingRequired(key: string)
    /** NumberFormatException from getIntHeader: the header value is not a 32-bit integer. */
    | NumberFormat(value: string)
    /** NullPointerException: a value asked for by key is absent. */
    | NullValue(key: string)
    /** ClassCastException: a value has the other of the two runtime types. */
    | ClassCast(key: string)
}
