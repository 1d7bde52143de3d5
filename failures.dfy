/**
 * The exceptions a handler lets escape, as values. Each names the Python
 * failure it stands for; none of them is caught inside the handler.
 */
module Failures {

  datatype Error =
    | IndexError(what: string)        // a subscript out of range, such as `paths[0]` of no paths
    | NameMismatch(name: string)      // the filename does not match the pattern, so the match is `None`
    | BadTimestamp(text: string)      // `strptime` rejects the text
    | BadInteger(text: string)        // `int` rejects the text
    | MissingElement(path: string)    // `find` gave `None` and the result was used
    | NotFeatureCollection(kind: string)  // the footprint's `type` assertion fails
    | SingleFileExpected(count: nat)  // the zipped-export assertion fails
}
