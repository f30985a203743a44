/** The errors a parse can end with: Zemel's own, or one a user closure threw. */
module Errors {
  import opened StringPointers

  datatype ZemelError =
    | Unknown
    | Parsing(line: int, column: int, message: seq<Byte>)
    | ExpectedTextNode
    | ExpectedElementNode

  /** Any Swift `Error`: Zemel's, or an opaque one thrown by user code. */
  datatype Error = Zemel(error: ZemelError) | User(id: nat)
}
