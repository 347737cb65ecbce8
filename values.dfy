/** The JavaScript values that flow through the request helper untouched:
    request bodies, response bodies and the numeric status used as a
    rejection reason. */
module Values {

  datatype Value =
    | Undefined
    | Null
    | Number(n: int)
    | Text(s: string)
    | Record(entries: seq<(string, Value)>)

  /** The object literal `{}`. */
  const EmptyObject: Value := Record([])
}
