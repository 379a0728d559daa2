/** The Python exceptions the modelled code lets escape to its caller. */
module Errors {

  datatype Exception =
    /** rdflib could not parse a document; the message is the parser's. */
    | ParseError(message: string)
    /** Raised by `Mapper.get_data_Info` in place of any parse failure. */
    | ValueError(message: string)
    /** Subscripting the `None` returned by a regex search that found nothing. */
    | TypeError(message: string)
    /** Calling a string method on the `None` of a listing entry without a download URL. */
    | AttributeError(message: string)

  const InvalidJsonLd: string := "url target is not a valid json-ld file"

  const NoneNotSubscriptable: string := "'NoneType' object is not subscriptable"

  const NoneHasNoEndswith: string := "'NoneType' object has no attribute 'endswith'"
}
