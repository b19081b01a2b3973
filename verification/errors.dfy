/** The ways one invocation of the parser can fail. Every one of them ends the
    invocation: the caller receives the error and no dataset. */
module Errors {

  /** The message of the error reported for data of an unsupported kind. */
  const INVALID_DATA_MESSAGE: string := "data must be a file path, HTML string, URL or a DOM element"

  datatype Error =
      /** The data is neither a DOM node nor a string. */
    | InvalidData(message: string)
      /** The data is `null`: the `'nodeType' in data` test throws a TypeError before any
          callback is reached. */
    | NullData
      /** Fetching, reading or parsing a URL, file or HTML string failed. */
    | ResolveFailed(reason: string)
      /** The RDFa extraction threw. */
    | ExtractionFailed(reason: string)
      /** Serializing a node of an XML literal threw. */
    | SerializationFailed
      /** An `rdf:object` value was a node list, which has no `indexOf`: a TypeError. */
    | ValueNotString
}
