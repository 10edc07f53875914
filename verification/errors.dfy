/** Outcomes shared by every part of the model: an optional value (Go's nil),
    a result that is either a value or an error, and the kinds of error the
    store reports. Exact error texts are replaced by kinds. */
module Errors {

  datatype Option<+T> = None | Some(value: T)

  datatype Error =
    // framing (pkg/sys, pkg/payload)
    | NoSize                 // fewer bytes than the size prefix
    | SizeExceedsPayload     // declared size runs past the end of the input
    | UnknownIntWidth        // host int width other than 2, 4 or 8
    | Panic                  // a Go runtime panic (slice bounds, index, division by zero)
    // helpers and codecs
    | BadIntBytes            // not exactly one native int
    | BadBoolBytes           // not exactly one byte
    | OutOfRange             // integer outside the requested width
    | UnsupportedSize        // integer width other than 2, 4 or 8
    | PayloadSizeMismatch    // integer payload of the wrong length
    | ExceedsMaxSize         // varchar longer than its declared size
    | InvalidUtf8
    // type registries
    | InvalidType            // a nil type
    | DoesNotImplement       // a type that does not implement Column
    | InvalidIdentifier
    | IdentifierUsed
    | NotFound
    | CannotParseColumn(inner: Error)
    | NilProcessor
    // column schemas
    | NotNullable
    | TypeMismatch
    | NullValue              // a not-null rule rejected nil
    | CellSizeMismatch       // cell payload of the wrong length
    | NullInNotNullable      // flag 0x00 on a not-nullable column
    | SectionCount           // a schema payload with the wrong number of sections
    | EmptyName
    | EmptyType
    // row schemas
    | ColumnNotDefined(pos: nat)
    | MissingName(pos: nat)
    | DuplicateName(pos: nat)
    | MissingType(pos: nat)
    | InvalidDefault(pos: nat, inner: Error)
    | ColumnSchemaAt(pos: nat)  // a column schema section that does not load
    | CountMismatch
    | RowSizeMismatch
    | ColumnNotInSchema
    | ColumnMissing
    // tables
    | InvalidRowId
    | ReadPastEnd            // a file read that runs past the end of the file
    | NegativeOffset         // a file read or write at a negative offset
    // schema processors
    | NilSchemaProcessor

  datatype Result<+T> = Ok(value: T) | Err(error: Error) {
    predicate IsFailure() { Err? }
    function PropagateFailure<U>(): Result<U>
      requires Err?
    {
      Err(error)
    }
    function Extract(): T
      requires Ok?
    {
      value
    }
  }
}
