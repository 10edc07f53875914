# ktdb core in Dafny

ktdb is a schema-driven binary row store written in Go. A table keeps
fixed-size rows in a data file and its row schema in a schema file; every
serialised structure is a list of sized sections (a little-endian length
prefix followed by that many bytes); column values go through per-type
codecs found in a type registry; and a small SQL front end turns a token
stream into a SELECT statement tree. The repository holds several
generations of the same design, and this project models each of them:

- **Sized-payload framing**: `pkg/sys` (fixed native width, `W = 8`) in
  `SysPayload`, and the older `pkg/payload` (host width `w` as a parameter:
  4 or 8 bytes on any Go host, with the code's width-2 branch kept as
  written) in `LegacyPayload`. Byte helpers (little-endian integers, zero
  padding, UTF-8 well-formedness) are in `ByteSeq`.
- **Column codecs**: the sized `Int` and `Varchar` of `pkg/column_types`
  (`IntColumn`, `VarcharColumn`, dispatched by `ColumnCodec`), and the
  native-width `Int` and framed `Str` of `internal/column_types`
  (`LegacyColumnTypes`).
- **Type registries**: `pkg/data/types.go` (`DataTypes`),
  `pkg/engine/column_processor.go` (`EngineColumnProcessor`) and the grid
  type processors (`GridProcessor`), all sharing the registration rule of
  `Registration`. Reflection is a closed description of Go types (`Values`).
- **Column schemas**: the always-flagged cell of `pkg/data`, `pkg/engine`
  and `internal/grid` (`FlagCell`, `DataColumnSchema`,
  `EngineColumnSchema`, `InternalGrid`), the nullable-only flag of the grid generation
  (`GridColumnSchema`, with `GridType`), and the rule-based schemas of
  `internal/table` (`TableColumn`).
- **Row schemas**: `DataRowSchema`, the processor-free copy of it in
  `internal/grid/schema.go` (`InternalGrid`, proved to agree with it),
  `EngineRowSchema`, `GridRowSchema`, all laying rows out through the shared
  loops of `RowLayout` and checking columns through `ColumnChecks`; and the
  name-keyed rows of `internal/table` (`TableRow`).
- **Tables**: the file-backed tables of `pkg/engine/structure/table.go` and
  `pkg/engine/table/table.go` (`FileTable`, each file being its byte
  contents), and the in-memory table of `internal/table/table.go`
  (`MemTable`). The two file-backed tables run the same row arithmetic, but
  they reach their files differently. In `pkg/engine/structure`,
  `TotalRows` and `load` reach `data.bin` and `schema.bin` in the working
  directory rather than in the table's directory, so those files are inputs
  of `FileTable.Table.TotalRows` and `FileTable.Table.Load`.
- **SQL**: the token stack and token conditions (`Tokenizer`), the statement
  trees (`SqlAst`), the first parser generation of `pkg/engine/parser/sql`
  (`ParserSql`) with its front `pkg/engine/parser/parser.go`
  (`SqlParser`), and the second generation of `pkg/engine/sql`
  (`EngineSql`).

Code that changes state in place is modelled as classes and methods
(registries, the grid column and row schema loaders, rows, tables and the
token stack); each such method is proved equal to a specification function
of the old state and its inputs, and the properties are proved about those
functions. Loops are methods with invariants; pure code is functions and
lemmas. Go runtime panics (an index or slice out of range, a division by
zero, a nil dereference) are the error kind `Panic`, and error messages are
error kinds.

## Model

The repository repeats several operations across its generations (a type
lookup, the cell width, the row encoder and decoder). Each generation's copy
has its own row below, citing its own lines, even where its contract is the
same as another generation's.

| member | source | states |
|---|---|---|
| ByteSeq.FromLEOfLE | pkg/payload/payload.go:18-26 | decoding the `w` little-endian bytes written for `n` gives `n` modulo 256^w, which is the truncating conversion the fixed-width writers perform |
| ByteSeq.SignedOfLE | pkg/payload/payload.go:18-26 | a value that fits a signed `w`-byte integer reads back unchanged once the unsigned decoding is converted to a signed int |
| ByteSeq.UnsignedOfLE | pkg/payload/payload.go:18-26 | a non-negative value below 256^w reads back unchanged from its `w` little-endian bytes |
| ByteSeq.LEOfFromLE | pkg/payload/payload.go:18-26 | every byte string is the little-endian encoding, at its own width, of the number it decodes to |
| ByteSeq.SignedIsSameBytes | pkg/sys/payload.go:12 | every `w` bytes decode to a signed value that fits the width and that encodes back to the same bytes |
| ByteSeq.Pad | pkg/column_types/varchar_column.go:37 | AddPadding: the result has exactly the requested size, starts with the input and is zero after it |
| ByteSeq.StripZeros | pkg/column_types/varchar_column.go:28 | RemovePadding: the result is a prefix of the input that does not end in 0x00, and everything removed is 0x00 |
| ByteSeq.StripPad | pkg/column_types/varchar_column.go:28-37 | removing the padding of a padded string that does not end in 0x00 gives the string back |
| ByteSeq.Fit | pkg/engine/grid/column/schema.go:121-132 | Go's copy into a fresh zeroed buffer of length `n`: the source truncated or zero-filled to exactly `n` bytes |
| ByteSeq.LeadLength | pkg/column_types/varchar_column.go:24 | the length of the well-formed UTF-8 sequence that opens a byte string, never more than 4 or the input length, as utf8.Valid decides |
| ByteSeq.ValidUtf8Concat | pkg/column_types/varchar_column.go:24 | well-formed UTF-8 stays well formed under concatenation |
| ByteSeq.ValidUtf8Zeros | pkg/column_types/varchar_column.go:24 | zero padding is well-formed UTF-8 |
| ByteSeq.ValidUtf8Pad | pkg/column_types/varchar_column.go:24-37 | padding well-formed UTF-8 with zeros keeps it well formed, so a padded varchar passes the UTF-8 check on the way back |
| SysPayload.IntAsBytes | pkg/sys/payload.go:44 | a native int is written as exactly W = 8 bytes |
| SysPayload.BytesAsInt | pkg/sys/payload.go:12 | reading a native int succeeds exactly when it is given W bytes |
| SysPayload.BytesAsIntInverse | pkg/sys/payload.go:12 | every W bytes decode to an int that fits 64 bits and encodes back to the same bytes |
| SysPayload.IntBytesRoundTrip | pkg/sys/payload.go:12-44 | an int that fits 64 bits reads back unchanged from IntAsBytes |
| SysPayload.BoolAsBytes | pkg/engine/column_schema.go:22 | a bool is written as exactly one byte |
| SysPayload.BytesAsBool | pkg/engine/column_schema_processor.go:48 | reading a bool succeeds exactly on one byte and gives true exactly when that byte is not zero |
| SysPayload.Frame | pkg/sys/payload.go:41-47 | a framed body is W bytes longer than the body and the body follows the prefix |
| SysPayload.Size | pkg/sys/payload.go:7-13 | fails exactly on payloads shorter than W bytes; otherwise it is the int read from the first W bytes |
| SysPayload.Read | pkg/sys/payload.go:15-25 | no size when the payload is shorter than W; a size running past the end is an error exactly when the prefix says so; on success the body is the bytes after the prefix and the consumed count is W plus the body length, within the payload |
| SysPayload.ReadAll | pkg/sys/payload.go:27-39 | the loop returns the bodies of consecutive sections that exactly cover the payload, or the first framing error |
| SysPayload.New | pkg/sys/payload.go:41-47 | returns the length prefix followed by the body |
| SysPayload.SizeIgnoresTrailing | pkg/sys/payload.go:7-13 | only the first W bytes decide the size: bytes after them do not change it |
| SysPayload.SizeOfFrame | pkg/sys/payload.go:7-47 | the size of a framed body is its length, whatever follows |
| SysPayload.ReadOfFrame | pkg/sys/payload.go:15-47 | Read undoes New: it gives back the body and consumes exactly its frame, whatever follows |
| SysPayload.ReadAllOfFrames | pkg/sys/payload.go:27-47 | ReadAll of framed bodies followed by a tail gives those bodies, then whatever the tail gives, so one malformed section fails the whole call |
| SysPayload.ReadAllRoundTrip | pkg/sys/payload.go:27-47 | ReadAll of the concatenated frames of a list of bodies gives the list |
| SysPayload.ReadAllCovers | pkg/sys/payload.go:27-39 | a successful ReadAll's input is exactly the frames of the bodies it returns: no byte is skipped or left over |
| SysPayload.FrameOfRead | pkg/sys/payload.go:15-25 | the bytes a successful Read consumed are the frame of the body it returned |
| LegacyPayload.Size | pkg/payload/payload.go:13-29 | no size when the payload is shorter than the int width; an unknown width is an error; otherwise the size fits the width and its little-endian bytes are the prefix |
| LegacyPayload.Read | pkg/payload/payload.go:31-43 | a size error is passed on; a size running past the end is an error exactly when the prefix says so; on success the body follows the prefix, the prefix is its length and the consumed count is the width plus that length |
| LegacyPayload.Frame | pkg/payload/payload.go:45-64 | the body after `w` bytes holding its length truncated to `w` bytes |
| LegacyPayload.Framed | pkg/payload/payload.go:45-64 | framing succeeds exactly at widths 2, 4 and 8, and any other width is an unknown-width error |
| LegacyPayload.New | pkg/payload/payload.go:45-64 | copies the body after the reserved bytes and writes the truncated length into them, or fails for an unknown width |
| LegacyPayload.ReadOfFrame | pkg/payload/payload.go:13-64 | at every known width Read undoes New for a body whose length fits the signed width, whatever follows |
| LegacyPayload.FrameOfRead | pkg/payload/payload.go:31-43 | every successful Read consumed exactly one framed section |
| Values.TypeOf | pkg/column_types/int_column.go:13-19 | the dynamic type of a column value is `Int` or `Varchar`, and its codec is the one the value's methods run |
| FlagCell.Encode | pkg/data/column_schema.go:87-104 | a negative cell width panics at the allocation; a failed validation is returned; a null gives a zeroed cell of the full width; a value gives 0xFF followed by exactly its codec output; a codec error is passed on |
| FlagCell.Marshal | pkg/data/column_schema.go:87-104 | fills a zeroed buffer, sets the flag and copies the codec output after it, giving exactly Encode's cell |
| FlagCell.Body | pkg/data/column_schema.go:106-117 | a payload of the wrong width is rejected; a zero flag is null on a nullable column and corrupt otherwise; any other flag yields the bytes after it |
| FlagCell.BodyOfEncode | pkg/data/column_schema.go:87-117 | reading the flag of an encoded cell gives null for null and exactly the value's codec output otherwise |
| IntColumn.Encoding | pkg/column_types/int_column.go:25-52 | a negative size panics; sizes other than 2, 4 and 8 are unsupported; a value outside the size's signed range is out of range; otherwise `size` bytes whose little-endian value is the number modulo 256^size |
| IntColumn.PutLE | pkg/column_types/int_column.go:31-47 | fills the buffer with the little-endian bytes of the number truncated to the buffer's width |
| IntColumn.Marshal | pkg/column_types/int_column.go:25-52 | returns exactly Encoding's result |
| IntColumn.Unmarshal | pkg/column_types/int_column.go:54-72 | a payload whose length differs from the size is rejected first, then an unsupported size; a decoded value re-encodes to the payload, and at sizes 2 and 4 it is non-negative (zero-extended) |
| IntColumn.RoundTripNonNegative | pkg/column_types/int_column.go:25-72 | at sizes 2 and 4 a non-negative number in range comes back unchanged |
| IntColumn.NegativeComesBackShifted | pkg/column_types/int_column.go:25-72 | at sizes 2 and 4 a negative number comes back increased by 256^size, because the decoder zero-extends |
| IntColumn.RoundTripWide | pkg/column_types/int_column.go:25-72 | at size 8 every Go int comes back unchanged |
| VarcharColumn.Marshal | pkg/column_types/varchar_column.go:31-38 | text longer than the size is an error exactly when it is longer; otherwise the result has exactly `size` bytes, starts with the text and is zero after it |
| VarcharColumn.Unmarshal | pkg/column_types/varchar_column.go:23-29 | fails exactly on bytes that are not UTF-8; otherwise the text is the payload with its trailing zero bytes removed, ending in a non-zero byte |
| VarcharColumn.RoundTrip | pkg/column_types/varchar_column.go:23-38 | UTF-8 text that fits the size and does not end in a zero byte comes back unchanged |
| VarcharColumn.TrailingZeroLost | pkg/column_types/varchar_column.go:23-38 | text ending in a zero byte does not come back unchanged |
| LegacyColumnTypes.TypeName | internal/column_types/int_column.go:17-19 | every value of the older generation has a non-empty type name |
| LegacyColumnTypes.IntEncoding | internal/column_types/int_column.go:21-39 | succeeds exactly at a known int width, giving one section whose body is the number's `w` little-endian bytes |
| LegacyColumnTypes.IntMarshal | internal/column_types/int_column.go:21-39 | returns exactly IntEncoding's result |
| LegacyColumnTypes.IntUnmarshal | internal/column_types/int_column.go:41-65 | a framing error is passed on; a body of other than `w` bytes is a mismatch; a decoded int fits the width and re-encodes to the body |
| LegacyColumnTypes.IntRoundTrip | internal/column_types/int_column.go:21-65 | a native int comes back unchanged, whatever follows its section |
| LegacyColumnTypes.StrMarshal | internal/column_types/str_column.go:32-34 | succeeds exactly at a known width, giving one section whose body is the text |
| LegacyColumnTypes.StrUnmarshal | internal/column_types/str_column.go:18-30 | a framing error is passed on; otherwise it succeeds exactly when the body is UTF-8, returning the body as text |
| LegacyColumnTypes.StrRoundTrip | internal/column_types/str_column.go:18-34 | UTF-8 text that fits a section comes back unchanged, whatever follows |
| LegacyColumnTypes.MarshalValue | internal/column_types/int_column.go:21-39 | marshalling either value succeeds exactly at a known width |
| LegacyColumnTypes.UnmarshalLike | internal/column_types/str_column.go:18-30 | decoding through a value's type yields a value of that same type |
| LegacyColumnTypes.ValueRoundTrip | internal/column_types/str_column.go:18-34 | every value that fits comes back unchanged through its own type |
| ColumnCodec.MarshalValue | pkg/column_types/varchar_column.go:31-38 | a value's codec output has exactly the column size |
| ColumnCodec.UnmarshalAs | pkg/data/column_schema.go:118 | decoding through a type yields a value of that type's kind |
| ColumnCodec.CodecRoundTrip | pkg/data/column_schema.go:97-118 | encoding a value and decoding it through its own type gives it back, for every value the codecs keep |
| Registration.Register | pkg/data/types.go:34-55 | a nil type, a type that is not a Column, an empty identifier and a taken identifier are refused in that order; success adds exactly the new identifier, mapped to the type, and keeps every earlier entry |
| Registration.RegisterAllSnoc | pkg/data/types.go:13-17 | registering a list one entry longer continues from the registry the shorter list left, or keeps its error |
| Registration.RegisterAllSucceeds | pkg/data/types.go:9-19 | registering a list succeeds exactly when every entry is a Column with a distinct, non-empty, untaken identifier |
| Registration.RegisterAllContents | pkg/data/types.go:9-19 | after a successful registration each listed type is found under its identifier and earlier entries are kept |
| Registration.RegisterAllOnly | pkg/data/types.go:9-19 | a successful registration adds nothing but the listed identifiers |
| Registration.Lookup | pkg/data/types.go:25-32 | looking an identifier up succeeds exactly when it is registered, giving its type, and otherwise reports not found |
| DataTypes.Types.Get | pkg/data/types.go:25-32 | succeeds exactly for a registered identifier, giving its type; otherwise not found |
| DataTypes.Types.Register | pkg/data/types.go:34-55 | on failure the registry is unchanged and the error is returned; on success the registry is exactly the one Register gives |
| DataTypes.NewTypes | pkg/data/types.go:9-19 | succeeds exactly when the whole list registers, holding exactly that registry; otherwise the first entry's error |
| DataTypes.Types.constructor | pkg/data/types.go:10-12 | a new registry holds no types |
| DataColumnSchema.ByteSize | pkg/data/column_schema.go:72-74 | the cell width is one flag byte more than the column size |
| DataColumnSchema.Validate | pkg/data/column_schema.go:76-85 | passes exactly when a nil value meets a nullable column and a value has exactly the schema's type; nil on a not-nullable column is NotNullable; a wrong type is a mismatch, or a panic when the schema's type is not a Column |
| DataColumnSchema.CellBytes | pkg/data/column_schema.go:87-104 | the cell is the flagged layout with this schema's validation: errors in the source's order, zeros for null, 0xFF and the codec output for a value |
| DataColumnSchema.Marshal | pkg/data/column_schema.go:87-104 | returns exactly CellBytes |
| DataColumnSchema.Unmarshal | pkg/data/column_schema.go:106-124 | a wrong width is rejected; a zero flag is null on a nullable column and corrupt otherwise; any other flag decodes the rest through the schema's type, passing on its error |
| DataColumnSchema.CellRoundTrip | pkg/data/column_schema.go:87-124 | Unmarshal undoes Marshal, for null and non-null values alike |
| DataColumnSchema.NullCellNotNullable | pkg/data/column_schema.go:111-116 | a null cell of a not-nullable column is rejected on the way back |
| DataColumnSchema.Sections | pkg/data/column_schema.go:52-70 | Bytes writes exactly five sections |
| DataColumnSchema.Bytes | pkg/data/column_schema.go:52-70 | a type that is not a Column panics; a default that does not marshal is an error; otherwise the framed type identifier, default cell (zeros for nil), name, size and flag |
| DataColumnSchema.Load | pkg/data/column_schema.go:11-42 | a framing error is passed on; otherwise the schema the sections describe |
| DataColumnSchema.FromSections | pkg/data/column_schema.go:17-41 | other than five sections is corrupt; an unregistered identifier is not found; on success type, name, size and flag are those the sections encode and a default is present exactly when its section starts with 0xFF |
| DataColumnSchema.LoadColumnSchemaFromBytes | pkg/data/column_schema.go:11-42 | fills a schema field by field and returns exactly Load's result |
| DataColumnSchema.LoadOfBytes | pkg/data/column_schema.go:11-70 | loading what Bytes wrote gives the schema back when its type is registered under its identifier and its default round-trips |
| DataColumnSchema.FromSectionsOfSchema | pkg/data/column_schema.go:17-70 | the five sections Bytes writes describe the schema they came from |
| ColumnChecks.FirstFromNone | pkg/data/schema.go:40-65 | the column loop reports no failure exactly when every position passes its checks |
| ColumnChecks.FirstFromSome | pkg/data/schema.go:40-65 | a reported failure is that of a failing position all of whose predecessors pass |
| ColumnChecks.NamesHas | pkg/data/schema.go:49-52 | a name is among the collected names exactly when some non-nil column before has it |
| ColumnChecks.DefinedAll | pkg/data/schema.go:67-70 | of a list without nil entries, the kept columns are all of them, in order |
| RowLayout.SumAppend | pkg/data/schema.go:64 | adding a column adds its cell width to the row size |
| RowLayout.Paint | pkg/data/schema.go:121 | Go's `copy(row[start:], cell)`: panics exactly when `start` is outside the row, keeps the row's length, writes the cell from `start` and leaves every other byte |
| RowLayout.EncodeAll | pkg/data/schema.go:115-123 | row assembly keeps the buffer's length |
| RowLayout.Cut | pkg/data/schema.go:138 | Go's `row[start:end]`: succeeds exactly when `0 <= start <= end <= len(row)`, giving that slice, and panics otherwise (Go bounds `end` by the capacity, which equals the length for every row here, since rows come from `make` or a read) |
| RowLayout.DecodeAll | pkg/data/schema.go:136-144 | a decoded row holds one value per column |
| RowLayout.CollectOk | pkg/data/schema.go:81-87 | mapping a list succeeds exactly when every element succeeds, and then holds those results in order |
| RowLayout.EncodeRow | pkg/data/schema.go:108-126 | the loop of every Row method: a negative row size panics; otherwise the cells painted into a zeroed buffer at running offsets, or the first failure |
| RowLayout.DecodeRow | pkg/data/schema.go:128-147 | the loop of every Columns method: each column's slice at running offsets, decoded in order, or the first failure |
| RowLayout.SumOfFitted | pkg/data/schema.go:64 | the summed cell widths are the length of the concatenated cells |
| RowLayout.EncodeAllFlat | pkg/data/schema.go:113-123 | when every cell has its declared width, the row is the cells side by side, written over the buffer from the start offset |
| RowLayout.DecodeAllFlat | pkg/data/schema.go:133-144 | decoding a row made of cells of the declared widths slices each cell back out and decodes it |
| RowLayout.CellAtOffset | pkg/data/schema.go:114-122 | in the concatenated cells, column `i` occupies exactly the bytes from the sum of the widths before it |
| RowLayout.Cells | pkg/data/schema.go:117 | the cells of values that all encode have their declared widths and are each value's encoding |
| RowLayout.LaidOut | pkg/data/schema.go:108-126 | when every value encodes to its declared width, a row of the summed width is the cells side by side, column `i` at the sum of the widths before it |
| RowLayout.RoundTrip | pkg/data/schema.go:108-147 | decoding a row undoes encoding it whenever each cell decodes back to its value |
| DataRowSchema.FromColumnsOk | pkg/data/schema.go:37-71 | NewRowSchema succeeds exactly when every column passes its checks; the schema then holds the columns in order and the row size is the sum of their cell widths |
| DataRowSchema.FromColumnsErr | pkg/data/schema.go:37-71 | a rejected list is rejected with the failure of its first failing column |
| DataRowSchema.FirstAt | pkg/data/schema.go:40-62 | when the checks pass before `i` and fail at `i`, that failure is the result |
| DataRowSchema.CheckColumn | pkg/data/schema.go:41-62 | given the names before it, the checks of one column (defined, named, name not taken, typed, default valid) report exactly the column's first failure |
| DataRowSchema.NewRowSchema | pkg/data/schema.go:37-71 | returns exactly FromColumns: the first failing column's error, or the columns with the summed row size |
| DataRowSchema.NewRowSchemaValid | pkg/data/schema.go:37-71 | an accepted schema has named, typed columns with pairwise distinct names and valid defaults |
| DataRowSchema.NewRowSchemaDuplicate | pkg/data/schema.go:49-51 | a repeated name is reported at its second occurrence when every earlier column passes |
| DataRowSchema.PreparedMeaning | pkg/data/schema.go:92-106 | Prepare succeeds exactly when every column's value (the caller's, else the default) validates, and then gives those values in schema order; a failure is the first column's that does not validate |
| DataRowSchema.Prepare | pkg/data/schema.go:92-106 | returns exactly Prepared |
| DataRowSchema.RowOf | pkg/data/schema.go:108-126 | a value count other than the column count is a mismatch; a negative row size panics; a row has exactly the row size |
| DataRowSchema.Row | pkg/data/schema.go:108-126 | returns exactly RowOf |
| DataRowSchema.ColumnsOf | pkg/data/schema.go:128-147 | a row whose length is not the row size is rejected; decoded values are one per column |
| DataRowSchema.Columns | pkg/data/schema.go:128-147 | returns exactly ColumnsOf |
| DataRowSchema.RowIsCells | pkg/data/schema.go:108-126 | under a summed row size, when every value encodes, column `i` of the row is exactly its cell, at the sum of the widths before it |
| DataRowSchema.RowRoundTrip | pkg/data/schema.go:108-147 | Columns undoes Row for values the cell codec keeps, under a schema built as NewRowSchema builds it |
| DataRowSchema.ColumnSectionsOk | pkg/data/schema.go:81-87 | the column sections exist exactly when every column schema serialises, and are those serialisations in order |
| DataRowSchema.Bytes | pkg/data/schema.go:78-90 | the framed row size followed by every framed column schema, or the first column's error |
| DataRowSchema.Sections | pkg/data/schema.go:81-87 | the loop serialises each column schema in turn and returns exactly ColumnSections |
| DataRowSchema.Load | pkg/data/schema.go:9-35 | a framing error is passed on; no section is corrupt; on success the row size is the int in the first section and the columns are what the others load as |
| DataRowSchema.LoadRowSchemaFromBytes | pkg/data/schema.go:9-35 | returns exactly Load |
| DataRowSchema.LoadSections | pkg/data/schema.go:27-32 | loads each column section in turn and reports the first that does not load by its position |
| DataRowSchema.LoadColumnsOf | pkg/data/schema.go:27-32 | sections each of which loads as its column schema load as all of them, in order |
| DataRowSchema.LoadOfBytes | pkg/data/schema.go:9-90 | loading what Bytes wrote gives the schema back |
| InternalGrid.ByteSize | internal/grid/column_schema.go:19-21 | the cell width is one flag byte more than the column size |
| InternalGrid.Validate | internal/grid/column_schema.go:23-34 | passes exactly when a nil value meets a nullable column and a value has exactly the schema's type; nil on a not-nullable column is NotNullable; a wrong type is a mismatch, or a panic when the schema's type is not a Column |
| InternalGrid.Marshal | internal/grid/column_schema.go:36-51 | the flagged cell of pkg/data (`DataColumnSchema.CellBytes`): validation errors first, zeros for null, 0xFF and the codec output for a value |
| InternalGrid.ColumnFromType | internal/grid/column_schema.go:65 | the processor-free decode: a nil type panics, a type that is not a Column is refused, otherwise the type's own codec decodes, its error wrapped as "cannot parse column" |
| InternalGrid.ColumnFromTypeAgrees | internal/grid/column_schema.go:65 | for every type, size and payload the processor-free decode gives what the column processor's `FromReflectionType` gives, so no registry takes part |
| InternalGrid.Unmarshal | internal/grid/column_schema.go:53-71 | a wrong width is rejected; a zero flag is null on a nullable column and corrupt otherwise; a decoded value is the schema type's codec reading of the bytes after the flag |
| InternalGrid.UnmarshalAgrees | internal/grid/column_schema.go:53-71 | every cell decodes exactly as the pkg/data cell does (`DataColumnSchema.Unmarshal`) |
| InternalGrid.CellRoundTrip | internal/grid/column_schema.go:36-71 | Unmarshal undoes Marshal, for null and for values the codec keeps |
| InternalGrid.NewRowSchema | internal/grid/schema.go:14-48 | returns exactly `DataRowSchema.FromColumns`: the first column that is nil, unnamed, a repeated name, untyped or has an invalid default is reported, else the columns with the summed cell widths (`FromColumnsOk`, `FromColumnsErr`) |
| InternalGrid.Prepare | internal/grid/schema.go:50-64 | returns exactly `DataRowSchema.Prepared`: each column's given value or default, validated, in schema order, or the first failure (`PreparedMeaning`) |
| InternalGrid.Row | internal/grid/schema.go:66-84 | returns exactly `DataRowSchema.RowOf`: count mismatch, a negative row size panics, otherwise the cells at their prefix-sum offsets in a row of the row size |
| InternalGrid.Columns | internal/grid/schema.go:86-105 | decoding each slice with the processor-free Unmarshal gives exactly `DataRowSchema.ColumnsOf`: a wrong row length is rejected, otherwise one value per column or the first failure |
| InternalGrid.RowByteSizeOfNew | internal/grid/schema.go:107-109 | the ByteSize of an accepted schema is the sum over its columns of the column size plus one |
| InternalGrid.RowRoundTrip | internal/grid/schema.go:66-105 | under a schema NewRowSchema accepted, Columns undoes Row for values the cell codec keeps |
| EngineColumnProcessor.ColumnProcessor.constructor | pkg/engine/column_processor.go:17-19 | a new processor starts with an empty registry |
| EngineColumnProcessor.ColumnProcessor.ReflectionType | pkg/engine/column_processor.go:45-52 | succeeds exactly for a registered identifier, giving its type; otherwise not found |
| EngineColumnProcessor.ColumnProcessor.Register | pkg/engine/column_processor.go:54-75 | on failure the registry is unchanged and the error returned; on success the registry is exactly the one Register gives |
| EngineColumnProcessor.FromReflectionType | pkg/engine/column_processor.go:32-43 | a nil type panics; a type that is not a Column is refused; otherwise the type's own codec decodes, its error wrapped as "cannot parse column" |
| EngineColumnProcessor.NewColumnProcessor | pkg/engine/column_processor.go:16-26 | succeeds exactly when the whole list registers, holding exactly that registry; otherwise the first entry's error |
| EngineColumnSchema.ColumnTypeOf | pkg/engine/column.go:11-14 | a value's Type() is the identifier of its column type |
| EngineColumnSchema.FromType | pkg/engine/column_schema.go:58 | an unregistered type name is not found; a registered one decodes with that type's codec |
| EngineColumnSchema.ByteSize | pkg/engine/column_schema.go:86-88 | the cell width is one flag byte more than the column size |
| EngineColumnSchema.ValidateColumn | pkg/engine/column_schema.go:27-35 | passes exactly when a nil value meets a nullable column and a value's type name is the schema's; otherwise NotNullable or a type mismatch |
| EngineColumnSchema.CellBytes | pkg/engine/column_schema.go:37-55 | the flagged cell with this schema's validation: a negative width panics, then validation errors, zeros for null, 0xFF and the codec output for a value |
| EngineColumnSchema.ColumnBytes | pkg/engine/column_schema.go:37-55 | returns exactly CellBytes |
| EngineColumnSchema.LoadColumn | pkg/engine/column_schema.go:57-64 | hands the whole payload to the processor, stripping no flag byte |
| EngineColumnSchema.LoadColumnFromPayload | pkg/engine/column_schema.go:66-84 | a wrong width is rejected; a zero flag is null on a nullable column and corrupt otherwise; any other flag decodes the bytes after it through LoadColumn |
| EngineColumnSchema.CellRoundTrip | pkg/engine/column_schema.go:37-84 | LoadColumnFromPayload undoes ColumnBytes for null and for values of the registered type |
| EngineColumnSchema.DefaultBytes | pkg/engine/column_schema.go:19 | the default section is the raw default, or empty for a nil one |
| EngineColumnSchema.Sections | pkg/engine/column_schema.go:17-25 | Bytes writes exactly five sections |
| EngineColumnSchema.Bytes | pkg/engine/column_schema.go:17-25 | never fails: the five framed sections type, default, name, size and flag |
| EngineColumnSchema.FromSections | pkg/engine/column_schema_processor.go:33-54 | other than five sections is corrupt; a type name or a name that is not UTF-8 is refused; on success each field is what its section encodes and the default is the raw section |
| EngineColumnSchema.Parse | pkg/engine/column_schema_processor.go:27-55 | a framing error is passed on; otherwise the schema the sections describe |
| EngineColumnSchema.ColumnSchemaProcessor.constructor | pkg/engine/column_schema_processor.go:20 | the processor keeps the column processor it is given |
| EngineColumnSchema.ColumnSchemaProcessor.Load | pkg/engine/column_schema_processor.go:27-55 | fills a fresh schema field by field and returns exactly Parse |
| EngineColumnSchema.NewColumnSchemaProcessor | pkg/engine/column_schema_processor.go:15-21 | refuses exactly a nil column processor; otherwise keeps it |
| EngineColumnSchema.LoadOfBytes | pkg/engine/column_schema_processor.go:27-55 | Load undoes Bytes on every field, except that a nil default comes back as an empty one |
| EngineColumnSchema.NilDefaultReloadsEmpty | pkg/engine/column_schema_processor.go:52 | a schema without a default does not come back unchanged: its default reloads as empty, not nil |
| EngineRowSchema.PreparedMeaning | pkg/engine/row_schema.go:28-46 | Prepare succeeds exactly when every column's value is found (a default decodes) and validates, then gives one value per column in schema order; a failure is the first failing column's |
| EngineRowSchema.PrepareMissingNoDefault | pkg/engine/row_schema.go:31-39 | a value missing from the map with no default stays nil, so only a nullable column accepts it |
| EngineRowSchema.Prepare | pkg/engine/row_schema.go:28-46 | returns exactly Prepared |
| EngineRowSchema.RowOf | pkg/engine/row_schema.go:48-66 | a value count other than the column count is a mismatch; a negative row size panics; a row has exactly the row size |
| EngineRowSchema.Row | pkg/engine/row_schema.go:48-66 | returns exactly RowOf |
| EngineRowSchema.ColumnsOf | pkg/engine/row_schema.go:68-87 | a row whose length is not the row size is rejected; decoded values are one per column |
| EngineRowSchema.Columns | pkg/engine/row_schema.go:68-87 | returns exactly ColumnsOf |
| EngineRowSchema.RowIsCells | pkg/engine/row_schema.go:48-66 | under a summed row size, when every value encodes, column `i` of the row is exactly its cell, at the sum of the widths before it |
| EngineRowSchema.RowRoundTrip | pkg/engine/row_schema.go:48-87 | Columns undoes Row for values the cell codec keeps, under a summed row size |
| EngineRowSchema.ColumnSections | pkg/engine/row_schema.go:17-23 | one serialised column schema per column, in order |
| EngineRowSchema.Bytes | pkg/engine/row_schema.go:14-26 | never fails: the framed row size followed by every framed column schema |
| EngineRowSchema.Parse | pkg/engine/row_schema_processor.go:34-60 | a framing error is passed on; no section is corrupt; on success the row size is the int in the first section and the columns are what the others parse as |
| EngineRowSchema.FromColumnsOk | pkg/engine/row_schema_processor.go:62-100 | New succeeds exactly when every column passes its checks; the schema then holds the columns in order with the summed cell widths as row size |
| EngineRowSchema.FromColumnsErr | pkg/engine/row_schema_processor.go:62-100 | a rejected list is rejected with the failure of its first failing column |
| EngineRowSchema.FromColumnsValid | pkg/engine/row_schema_processor.go:62-100 | an accepted schema has named, typed columns with pairwise distinct names, and every default decodes to a value its column accepts |
| EngineRowSchema.RowSchemaProcessor.constructor | pkg/engine/row_schema_processor.go:18-21 | the processor keeps both processors it is given |
| EngineRowSchema.RowSchemaProcessor.Load | pkg/engine/row_schema_processor.go:34-60 | returns exactly Parse |
| EngineRowSchema.RowSchemaProcessor.New | pkg/engine/row_schema_processor.go:62-100 | returns exactly FromColumns over the column processor's registry |
| EngineRowSchema.LoadSections | pkg/engine/row_schema_processor.go:52-57 | parses each column section in turn and reports the first that does not parse by its position |
| EngineRowSchema.NewWith | pkg/engine/row_schema_processor.go:63-99 | the loop of New: returns exactly FromColumns |
| EngineRowSchema.CheckColumn | pkg/engine/row_schema_processor.go:66-91 | given the names before it, the checks of one column (defined, named, name not taken, typed, default decodes and validates) report exactly the column's first failure |
| EngineRowSchema.NewRowSchemaProcessor | pkg/engine/row_schema_processor.go:9-22 | refuses a nil column schema processor, then a nil column processor; succeeds exactly when both are given, keeping them |
| EngineRowSchema.ReloadedAll | pkg/engine/column_schema_processor.go:52 | every column schema as it comes back from its serialised form, nil defaults as empty ones |
| EngineRowSchema.SectionsOf | pkg/engine/row_schema.go:14-26 | the sections of a serialised schema read back as the row size and each column schema's bytes |
| EngineRowSchema.LoadOfBytes | pkg/engine/row_schema_processor.go:34-60 | loading what Bytes wrote restores the row size, the column count and every column's fields, nil defaults reading back as empty ones |
| GridType.Bytes | pkg/engine/grid/column/type.go:12-14 | a type name is written as one byte per character of the name |
| GridType.Load | pkg/engine/grid/column/type.go:16-21 | succeeds exactly on UTF-8 input, and the loaded name writes back as that input |
| GridType.LoadBytes | pkg/engine/grid/column/type.go:12-21 | loading the bytes of a UTF-8 type name gives the name back |
| GridType.EmptyIsEqualsEmpty | pkg/engine/grid/column/type.go:27-37 | a type is Empty exactly when it Equals the empty name |
| GridProcessor.AsRType | pkg/engine/grid/column/processor.go:38-55 | a type processor registers as a Column type or as nil, never as a type that does not implement Column |
| GridProcessor.Processor.constructor | pkg/engine/grid/column/processor.go:14-16 | a new processor starts with an empty registry |
| GridProcessor.Processor.TypeProcessor | pkg/engine/grid/column/processor.go:29-36 | succeeds exactly for a registered type name, giving its processor; otherwise not found |
| GridProcessor.Processor.RegisterTypeProcessor | pkg/engine/grid/column/processor.go:38-55 | a nil processor is refused with its own error; an empty or taken name is refused with the registry unchanged; on success exactly the processor's name is added |
| GridProcessor.AsRTypes | pkg/engine/grid/column/processor.go:17-21 | the list of processors as the registration rule sees them, entry by entry |
| GridProcessor.EntryError | pkg/engine/grid/column/processor.go:38-55 | a nil processor is refused as nil, not as an invalid type; any other processor fails exactly when the registration rule refuses it, with that rule's error |
| GridProcessor.NewProcessor | pkg/engine/grid/column/processor.go:13-23 | succeeds exactly when the whole list registers, holding exactly that registry; on failure the error is that of the first entry that does not register, against the registry the entries before it built |
| GridColumnSchema.ValidateColumn | pkg/engine/grid/column/schema.go:20-28 | passes exactly when a nil value meets a nullable column and a value's type name is the schema's; otherwise NotNullable or a type mismatch |
| GridColumnSchema.PayloadSize | pkg/engine/grid/column/schema.go:72-84 | the column size, plus one flag byte on a nullable column only |
| GridColumnSchema.Packed | pkg/engine/grid/column/schema.go:121-132 | a negative payload size panics; nil gives zeros of the payload size; a payload gets the 0xFF flag on a nullable column and is copied after it, truncated or zero-filled to the column size |
| GridColumnSchema.Pack | pkg/engine/grid/column/schema.go:121-132 | returns exactly Packed |
| GridColumnSchema.UnpackPack | pkg/engine/grid/column/schema.go:121-144 | unpack undoes pack: a payload of exactly the column size comes back unchanged, and nil comes back nil on a nullable column |
| GridColumnSchema.CellBytes | pkg/engine/grid/column/schema.go:86-96 | a codec error is passed on; otherwise the packed codec output, without validation: zeros of the payload size for nil, and the codec output after the flag of a nullable column for a value |
| GridColumnSchema.ColumnBytes | pkg/engine/grid/column/schema.go:86-96 | returns exactly CellBytes |
| GridColumnSchema.Column | pkg/engine/grid/column/schema.go:98-119 | an unregistered type is not found first; an empty payload on a nullable column panics; nil exactly for a zero flag on a nullable column; otherwise the registered type's codec decodes the bytes after any flag |
| GridColumnSchema.CellRoundTrip | pkg/engine/grid/column/schema.go:86-119 | Column undoes ColumnBytes for nil on a nullable column and for values of the registered type |
| GridColumnSchema.NilOnNotNullable | pkg/engine/grid/column/schema.go:86-119 | ColumnBytes does not validate: nil on a not-nullable column is written as zeros, which Column reads back as a value, not as nil |
| GridColumnSchema.Validate | pkg/engine/grid/column/schema.go:150-158 | passes exactly when both the name and the type are present; the name is checked first |
| GridColumnSchema.Sections | pkg/engine/grid/column/schema.go:30-37 | Bytes writes exactly five sections |
| GridColumnSchema.LoadSize | pkg/engine/grid/column/schema.go:55 | the size loads exactly when BytesAsInt succeeds, and it writes back as its section |
| GridColumnSchema.Schema.constructor | pkg/engine/grid/row/schema.go:46 | `&column.Schema{}` holds the zero schema |
| GridColumnSchema.Schema.Load | pkg/engine/grid/column/schema.go:39-70 | the fields after the call and the error are exactly Loaded of the old fields: each field is assigned as its section is read, so a failure keeps the later fields |
| GridColumnSchema.Schema.LoadSections | pkg/engine/grid/column/schema.go:47-69 | over the five sections, the fields and the error are exactly LoadedSections of the old fields |
| GridColumnSchema.LoadOverwrites | pkg/engine/grid/column/schema.go:39-70 | a successful load read five sections, overwrites every field whatever the receiver held, and leaves a UTF-8 name and type, neither empty, and the raw default section |
| GridColumnSchema.LoadPartial | pkg/engine/grid/column/schema.go:47-53 | a name section that is not UTF-8 fails the load after the type is assigned: the receiver has the new type and keeps its other fields |
| GridColumnSchema.LoadOfBytes | pkg/engine/grid/column/schema.go:30-70 | loading what Bytes wrote, into any receiver, restores every field (a nil default as an empty one) and reports what validate finds |
| GridRowSchema.RowOf | pkg/engine/grid/row/schema.go:56-74 | a value count other than the column count is a mismatch; a negative row size panics; a row has exactly the row size |
| GridRowSchema.ColumnsOf | pkg/engine/grid/row/schema.go:76-95 | a row whose length is not the row size is rejected; decoded values are one per column |
| GridRowSchema.ColumnSections | pkg/engine/grid/row/schema.go:18-24 | every entry's serialised form in order, and a panic exactly when an entry is nil |
| GridRowSchema.Sections | pkg/engine/grid/row/schema.go:17-22 | the loop serialises each entry in turn and returns exactly ColumnSections |
| GridRowSchema.SectionsOfLoop | pkg/engine/grid/row/schema.go:17-24 | what the loop collects from defined entries is ColumnSections |
| GridRowSchema.Nils | pkg/engine/grid/row/schema.go:39 | `make([]*column.Schema, n)` holds `n` nil entries |
| GridRowSchema.Loads | pkg/engine/grid/row/schema.go:45-51 | one loaded column schema per column section |
| GridRowSchema.Schema.constructor | pkg/engine/grid/row/processor.go:63-66 | the schema keeps the entries and row size it is given |
| GridRowSchema.Schema.Bytes | pkg/engine/grid/row/schema.go:15-27 | the framed 64-bit row size followed by every framed column schema; a nil entry panics |
| GridRowSchema.Schema.Load | pkg/engine/grid/row/schema.go:29-54 | the entries, row size and error after the call are exactly Loaded of the old ones: entries become nils once the sections are read, then the row size, then the columns in order |
| GridRowSchema.Schema.Row | pkg/engine/grid/row/schema.go:56-74 | returns exactly RowOf on the current fields |
| GridRowSchema.Schema.Columns | pkg/engine/grid/row/schema.go:76-95 | returns exactly ColumnsOf on the current fields and the processor's registry |
| GridRowSchema.LoadColumnsUpTo | pkg/engine/grid/row/schema.go:45-51 | when the columns before `k` load and column `k` does not, the loop fills exactly columns `i` to `k - 1`, leaves the rest, and names column `k` |
| GridRowSchema.LoadedLoop | pkg/engine/grid/row/schema.go:29-54 | once the sections are read and the row size loads, Load is its column loop over nil entries |
| GridRowSchema.LoadUpTo | pkg/engine/grid/row/schema.go:29-54 | after the row size loads, a load leaves one entry per column section, filled up to the first failing section and nil from there on, with that position as the error |
| GridRowSchema.ReloadedAll | pkg/engine/grid/column/schema.go:63 | every column schema as it loads back from its bytes, nil defaults as empty ones |
| GridRowSchema.SectionsOf | pkg/engine/grid/row/schema.go:15-27 | the sections of a storable schema read back as the row size and the column schemas |
| GridRowSchema.SectionsLoad | pkg/engine/grid/row/schema.go:45-51 | every section Bytes wrote loads into its column schema with validate's verdict |
| GridRowSchema.LoadOfBytes | pkg/engine/grid/row/schema.go:15-54 | loading what Bytes wrote, into any receiver, restores the row size and every column schema, nil defaults as empty ones, without error |
| GridRowSchema.RowIsCells | pkg/engine/grid/row/schema.go:56-74 | under a summed row size, when every value encodes, column `i` of the row is exactly its cell, at the sum of the widths before it |
| GridRowSchema.RowRoundTrip | pkg/engine/grid/row/schema.go:56-95 | Columns undoes Row for values the cells keep, under a summed row size |
| GridRowSchema.PreparedMeaning | pkg/engine/grid/row/processor.go:28-47 | Prepare succeeds exactly when every entry is defined and its value is found (a default decodes) and validates, then gives one value per column in schema order; a failure is the first failing column's |
| GridRowSchema.NewRowSizeMeaning | pkg/engine/grid/row/processor.go:49-67 | New succeeds exactly when every entry is defined and the names are pairwise distinct; a failure is the first failing entry's |
| GridRowSchema.Processor.constructor | pkg/engine/grid/row/processor.go:19-21 | the processor keeps the column processor it is given |
| GridRowSchema.Processor.Prepare | pkg/engine/grid/row/processor.go:28-47 | returns exactly Prepared over the schema's entries and the processor's registry |
| GridRowSchema.Processor.New | pkg/engine/grid/row/processor.go:49-67 | fails exactly when NewRowSize does, with its error; otherwise a fresh schema holding the given entries and the summed payload sizes |
| GridRowSchema.NewProcessor | pkg/engine/grid/row/processor.go:14-22 | refuses exactly a nil column processor; otherwise keeps it |
| GridRowSchema.NewRowRoundTrip | pkg/engine/grid/row/processor.go:49-67 | a schema New accepts has Row and Columns agree: every value a cell keeps survives a row |
| TableColumn.TypeOf | internal/table/column.go:37 | a non-nil value's reflected type is the Int type exactly for an Int and the Str type otherwise |
| TableColumn.WithTypeOf | internal/table/column.go:31-43 | nil passes; a value passes exactly when its type is the wanted one; a mismatch is a type error when the wanted type is a Column type and a panic otherwise |
| TableColumn.WithNotNullValueRule | internal/table/column.go:45-52 | rejects exactly nil |
| TableColumn.FirstFailureMeaning | internal/table/column.go:19-24 | the rule loop reports nothing exactly when every rule passes, and otherwise the failure of a rule all of whose predecessors pass |
| TableColumn.FirstFailureAppend | internal/table/column.go:19 | a rule appended after passing rules decides the outcome, and is never reached after a failing one |
| TableColumn.ValidateMeaning | internal/table/column.go:18-27 | Validate passes exactly when every user rule passes and the value is nil or of the schema's type; a failing user rule is reported before the type rule runs |
| TableColumn.ValidateNil | internal/table/column.go:18-36 | nil passes a schema exactly when it passes the user rules |
| TableColumn.NotNullRejectsNil | internal/table/column.go:18-27 | a not-null rule anywhere among the user rules makes nil fail |
| TableColumn.ColumnFromType | pkg/data/column.go:17-28 | a type that is not a Column type is refused; a decoded value has the requested type and is what that type's Unmarshal gives |
| TableColumn.ColumnFromMarshal | pkg/data/column.go:17-28 | a value of the column's type that its codec keeps comes back from its marshalled bytes, whatever follows them |
| TableRow.Find | internal/table/row_schema.go:62-70 | not found exactly when no column has the name; otherwise the first column with it |
| TableRow.NamedKeys | internal/table/row_schema.go:73-88 | the built map has exactly the names of the columns so far |
| TableRow.NamedValues | internal/table/row_schema.go:73-88 | a name not repeated later holds its own column's value |
| TableRow.NamedSize | internal/table/row_schema.go:73-88 | with distinct names the map has one entry per column |
| TableRow.Picked | internal/table/row_schema.go:76-79 | one chosen value per schema column |
| TableRow.Sanitize | internal/table/row_schema.go:73-88 | returns exactly Sanitized, the loop keeping the names it has filled |
| TableRow.SanitizedChecks | internal/table/row_schema.go:73-88 | sanitize succeeds exactly when every column's input value, or else its default, validates; a failure is the first failing column's |
| TableRow.SanitizedColumns | internal/table/row_schema.go:73-88 | sanitize keeps exactly the schema's names, dropping other keys, and each column holds its input value or its default |
| TableRow.Row.constructor | internal/table/row_schema.go:40-43 | the row holds the given map |
| TableRow.Row.Set | internal/table/row.go:17-31 | an unknown name or a value that fails the first such column's validation is refused with the row unchanged; otherwise exactly that name is set |
| TableRow.Row.Get | internal/table/row.go:33-43 | the value stored under the name, or a missing-column error when the row has none |
| TableRow.Row.Bytes | internal/table/row.go:45-70 | returns exactly RowBytes of the row's map from the first column |
| TableRow.SetOutcome | internal/table/row.go:17-25 | Set reports nothing exactly when some first column of that name validates the value, and not found when no column has the name |
| TableRow.RowBytes | internal/table/row.go:45-70 | at a known int width a row always has bytes |
| TableRow.Sections | internal/table/row.go:50-67 | one framed section per schema column |
| TableRow.RowBytesSections | internal/table/row.go:45-70 | a row's bytes are its sections in schema order, a section empty exactly for a nil or absent value; at an unknown width a schema with columns fails |
| TableRow.LoadRow | internal/table/row_schema.go:17-44 | a fresh row holding exactly what LoadRowFrom reads from the payload, or its error |
| TableRow.NewRow | internal/table/row_schema.go:49-59 | sanitize's error, or a fresh row holding exactly sanitize's map |
| TableRow.StoredAll | internal/table/row.go:51 | the value held for each schema column, nil when absent |
| TableRow.LoadStep | internal/table/row_schema.go:20-38 | loading one column's section stores that column and moves on to the next |
| TableRow.LoadSections | internal/table/row_schema.go:20-38 | loading a row's sections fills every column and leaves the bytes that follow |
| TableRow.LoadRowOfBytes | internal/table/row.go:45-70 | LoadRow gives back every column of a row Bytes wrote, absent values as nil |
| TableRow.LoadRowExtraSection | internal/table/row_schema.go:26 | a section past the schema's last column panics, since the next column's position is not checked |
| MemTable.ValuesOf | internal/table/table.go:15 | the map of each row, in order |
| MemTable.Table.constructor | internal/table/table.go:11-16 | the table holds the given name, schema and rows |
| MemTable.Table.Bytes | internal/table/table.go:18-37 | returns exactly TableBytes of the rows' maps |
| MemTable.Table.Append | internal/table/table.go:39-43 | the row is added at the end, nothing else changes |
| MemTable.Table.Get | internal/table/table.go:45-53 | a row in range is returned; past the end is an invalid row id; the end itself and a negative position panic |
| MemTable.Table.Update | internal/table/table.go:55-64 | a row in range is replaced and no other; past the end is an invalid row id; the end and a negative position panic; errors leave the rows |
| MemTable.Table.Load | internal/table/table.go:66-93 | the rows are replaced by fresh rows holding what LoadTable reads only when every row loads; an error leaves the rows as they were |
| MemTable.ReadRows | internal/table/table.go:72-86 | one fresh row per row section, in order, holding what LoadRowsFrom reads, or its first error |
| MemTable.RowSections | internal/table/table.go:23-33 | one framed section per row |
| MemTable.RowsBodySections | internal/table/table.go:23-34 | at a known width the rows' bytes are each row's section in order |
| MemTable.TableBytesLayout | internal/table/table.go:18-37 | a table's bytes are one outer section holding every row's section in order |
| MemTable.ReloadedRows | internal/table/table.go:79 | each row as LoadRow gives it back |
| MemTable.FramedAll | internal/table/table.go:29 | each body in a section of its own |
| MemTable.LoadFramedRows | internal/table/table.go:72-86 | consecutive row sections load as their rows, in order |
| MemTable.LoadRowSection | internal/table/table.go:73-85 | a row's section loads as that row, followed by what comes after |
| MemTable.LoadOfBytes | internal/table/table.go:18-93 | Load gives back a table's rows from its bytes: as many rows, in order, each with every schema column, nil where the row held nothing |
| MemTable.RowBodies | internal/table/table.go:24 | the bytes of each row, in order |
| MemTable.AllRowsLoadBack | internal/table/table.go:18-93 | every row of a table whose sections fit loads back from its bytes |
| MemTable.RowLoadsBack | internal/table/table.go:18-93 | each row of a table whose sections fit loads back from its bytes |
| FileTable.ReadRange | pkg/storage/read.go:28-44 | a reversed range panics; a negative start is refused; an empty range succeeds; otherwise exactly the file's bytes in the range, when the range fits the file |
| FileTable.Patched | pkg/storage/write.go:53-65 | the written bytes are at the offset, the file's other bytes are kept, and a gap past the old end is zeros |
| FileTable.WrittenAt | pkg/storage/write.go:53-65 | a negative offset is refused; an empty write leaves the file; any other write patches it |
| FileTable.Quotient | pkg/engine/structure/table.go:43 | Go's int64 division truncates toward zero |
| FileTable.RowCount | pkg/engine/structure/table.go:37-44 | a zero row size panics; a positive one gives the number of whole rows in the file |
| FileTable.Table.constructor | pkg/engine/structure/schema.go:51 | the table holds the given name, schema and files |
| FileTable.Table.TotalRows | pkg/engine/structure/table.go:37-44 | returns exactly RowCount of the size of the file Info stats: the working directory's `data.bin`, not the table's own data file unless the table is kept in the working directory |
| FileTable.Table.Row | pkg/engine/structure/table.go:50-66 | returns exactly RowAt of the data file |
| FileTable.Table.Set | pkg/engine/structure/table.go:68-76 | the data file becomes SetAt's, or stays as it was with its error; the schema and its file are kept |
| FileTable.Table.Append | pkg/engine/structure/table.go:78-83 | the bytes are added at the end of the data file, nothing else changes |
| FileTable.Table.Load | pkg/engine/structure/table.go:95-107 | a fresh schema holds what the grid row schema's Load reads into an empty schema from the payload ReadAll returns, which is the working directory's `schema.bin` and not the file `create` wrote unless the table is kept in the working directory; the schema is kept even when loading fails |
| FileTable.Table.Create | pkg/engine/structure/table.go:109-121 | the schema file receives the schema's bytes and the data file is emptied; a schema that cannot be written leaves both files |
| FileTable.RowAtMeaning | pkg/engine/structure/table.go:50-66 | with a positive row size, row id reads exactly when 1 <= id and it ends inside the file, and gives its row-size bytes |
| FileTable.AppendThenRow | pkg/engine/structure/table.go:37-83 | appending a row to a file of whole rows adds one to that file's row count, and the new last row reads back; this is TotalRows' count only when TotalRows stats the appended file, which holds in `pkg/engine/table` and, in `pkg/engine/structure`, only for a table kept in the working directory |
| FileTable.SetThenRow | pkg/engine/structure/table.go:50-76 | a row that was set reads back as the bytes written; the write fails only below row 1 |
| FileTable.PatchedOutside | pkg/storage/write.go:59 | a write at an offset keeps the old bytes outside its range |
| FileTable.PatchedGap | pkg/storage/write.go:59 | a write past the end leaves zeros between the old end and the write |
| FileTable.SetKeepsOtherRows | pkg/engine/structure/table.go:50-76 | setting one row leaves every other row as it read |
| FileTable.SetSize | pkg/engine/structure/table.go:68-76 | setting a row inside the file keeps its size; past the end the file grows to end at that row and the rows between read as zeros |
| FileTable.CreatedIsEmpty | pkg/engine/structure/table.go:37-66 | a created table has no rows unless the row size is zero, and no row reads |
| Tokenizer.HeadIf | pkg/engine/parser/tokenizer/token.go:72-80 | the top token exactly when there is one and its type is among the given ones |
| Tokenizer.IsType | pkg/engine/parser/tokenizer/conditions.go:5-9 | accepts exactly the tokens of the type |
| Tokenizer.Is | pkg/engine/parser/tokenizer/conditions.go:11-15 | accepts exactly the tokens whose text is the value, exactly or up to ASCII case |
| Tokenizer.AllHold | pkg/engine/parser/tokenizer/conditions.go:19-24 | true exactly when every condition holds |
| Tokenizer.CondGroup | pkg/engine/parser/tokenizer/conditions.go:17-26 | accepts exactly the tokens every condition accepts, so every token when there are none |
| Tokenizer.AnyHolds | pkg/engine/sql/where.go:59-62 | true exactly when some condition holds |
| Tokenizer.HeadIfAny | pkg/engine/sql/where.go:59-62 | the top token exactly when some condition accepts it |
| Tokenizer.Tokens.constructor | pkg/engine/parser/tokenizer/token.go:26-31 | the stack holds the given tokens and the count matches |
| Tokenizer.Tokens.HasNext | pkg/engine/parser/tokenizer/token.go:38-40 | true exactly when tokens remain |
| Tokenizer.Tokens.Next | pkg/engine/parser/tokenizer/token.go:65-70 | the top token, or nil on an empty stack |
| Tokenizer.Tokens.NextIf | pkg/engine/parser/tokenizer/token.go:72-80 | the top token exactly when it is of one of the types, or nil |
| Tokenizer.Tokens.Pop | pkg/engine/parser/tokenizer/token.go:42-50 | returns what Next would and removes it, keeping the count in step; nothing changes on an empty stack |
| Tokenizer.Tokens.PopIf | pkg/engine/parser/tokenizer/token.go:52-63 | returns what NextIf would and removes it; the stack is unchanged when it returns nil |
| Tokenizer.Tokens.PopIfAny | pkg/engine/sql/where.go:39 | removes and returns the top token exactly when some condition accepts it; otherwise nothing changes |
| Tokenizer.Tokens.AreNextInOrder | pkg/engine/parser/tokenizer/token.go:82-93 | true exactly when the top tokens have the given types in order; true for none, false when fewer tokens remain |
| SqlAst.Conditions | pkg/engine/parser/sql/where.go:32-36 | a chain has at least one condition, its last being the node's own |
| SqlAst.Connectors | pkg/engine/parser/sql/where.go:32-36 | a chain has one connector fewer than conditions |
| SqlAst.ChainParts | pkg/engine/parser/sql/where.go:54-58 | a chain built from conditions and connectors holds exactly those, in order |
| SqlAst.ChainConditions | pkg/engine/parser/sql/where.go:54-58 | a chain built from conditions holds exactly those conditions, in order |
| SqlAst.ChainConnectors | pkg/engine/parser/sql/where.go:54-58 | a chain built from connectors holds exactly those connectors, in order |
| SqlAst.ChainIsLeftDeep | pkg/engine/parser/sql/where.go:54-58 | a chain built with defined connectors has WhereUndef on its first node only |
| SqlAst.LeftDeepIsChain | pkg/engine/parser/sql/where.go:54-58 | every left-deep chain is the chain of its own conditions and connectors, none of them WhereUndef |
| ParserSql.ConditionOf | pkg/engine/parser/sql/where.go:77-107 | a condition read consumes exactly its three tokens |
| ParserSql.ConditionMeaning | pkg/engine/parser/sql/where.go:77-107 | a condition is read exactly when a keyword, a comparison and a value token lead, and holds their texts and comparison; otherwise the tokens before the first misfit are consumed and the error tells the end of input from the wrong token |
| ParserSql.ParseWhereCondition | pkg/engine/parser/sql/where.go:77-107 | the result and the tokens left are exactly ConditionOf of the stack |
| ParserSql.WhereOperationOf | pkg/engine/parser/sql/where.go:109-117 | no connector is WhereUndef, an OR token WhereOr and any other WhereAnd |
| ParserSql.WhereClauseOf | pkg/engine/parser/sql/where.go:38-41 | without a WHERE token nothing is consumed and there is no clause |
| ParserSql.ParseWhereClause | pkg/engine/parser/sql/where.go:38-75 | the result and the tokens left are exactly WhereClauseOf of the stack |
| ParserSql.ChainFromLeftDeep | pkg/engine/parser/sql/where.go:48-74 | the WHERE loop keeps its chain left-deep |
| ParserSql.WhereClauseLeftDeep | pkg/engine/parser/sql/where.go:38-75 | a parsed clause is a left-deep chain: WhereUndef on the first condition and the connector before every later one |
| ParserSql.ConditionOfTokens | pkg/engine/parser/sql/where.go:77-107 | a condition's three tokens read back as that condition |
| ParserSql.ChainStep | pkg/engine/parser/sql/where.go:49-60 | one turn of the WHERE loop adds a node with the condition read and the previous connector |
| ParserSql.ChainFromTokens | pkg/engine/parser/sql/where.go:48-64 | the loop over a rendered chain from any condition on builds the whole chain |
| ParserSql.WhereOfTokens | pkg/engine/parser/sql/where.go:38-75 | WHERE and a rendered chain parse back to the chain, the loop going on as the following tokens decide |
| ParserSql.WhereRoundTrip | pkg/engine/parser/sql/where.go:38-75 | WHERE and a chain's tokens, followed by anything but a connector, parse to that chain and leave the rest |
| ParserSql.WhereErrors | pkg/engine/parser/sql/where.go:66-72 | WHERE alone has no conditions; a chain ending in a connector is an error naming the connector |
| ParserSql.ParseColumns | pkg/engine/parser/sql/utils.go:10-54 | the result and the tokens left are exactly ColumnsOf of the stack |
| ParserSql.ColumnsNamed | pkg/engine/parser/sql/utils.go:39-42 | one column per name token, holding its text |
| ParserSql.ColumnsFromTail | pkg/engine/parser/sql/utils.go:17-43 | the column loop over the commas and names after a name adds those columns in order |
| ParserSql.ColumnsStep | pkg/engine/parser/sql/utils.go:26-42 | a comma and a name add that name's column |
| ParserSql.ColumnsOfList | pkg/engine/parser/sql/utils.go:10-54 | a list of names is read as its columns, whatever follows it |
| ParserSql.ColumnsRoundTrip | pkg/engine/parser/sql/utils.go:10-54 | names separated by commas, followed by a token that is not a comma or a name, parse to those columns in order and leave that token |
| ParserSql.ColumnsErrors | pkg/engine/parser/sql/utils.go:10-54 | no columns, a trailing comma, a leading comma and two names without a comma are each their own error |
| ParserSql.TableOf | pkg/engine/parser/sql/utils.go:56-65 | a table is read exactly from one name token, which is consumed; otherwise nothing is, and the error tells the end of input from a wrong token |
| ParserSql.ParseTable | pkg/engine/parser/sql/utils.go:56-65 | the result and the tokens left are exactly TableOf of the stack |
| ParserSql.IsSelect | pkg/engine/parser/sql/select.go:33-35 | SELECT is consumed exactly when it is on top; otherwise nothing changes |
| ParserSql.FromOf | pkg/engine/parser/sql/select.go:68-75 | a token other than FROM is an error naming it, with nothing consumed; after FROM a table is read |
| ParserSql.ParseFrom | pkg/engine/parser/sql/select.go:68-75 | the result and the tokens left are exactly FromOf of the stack |
| ParserSql.ParseSelect | pkg/engine/parser/sql/select.go:37-66 | the result and the tokens left are exactly SelectOf of the stack |
| ParserSql.SelectColumnsOnly | pkg/engine/parser/sql/select.go:37-66 | columns alone make a statement with no table and no WHERE clause |
| ParserSql.SelectRoundTrip | pkg/engine/parser/sql/select.go:37-66 | columns, FROM, a table and a WHERE chain parse to the statement holding them, every token consumed |
| ParserSql.SelectFromTable | pkg/engine/parser/sql/select.go:37-75 | columns, FROM and a table parse to a statement with no WHERE clause; another token where FROM is due is an error naming it |
| SqlParser.NewSqlParser | pkg/engine/parser/parser.go:9-19 | a missing tokenizer is refused first, then a missing statement parser; otherwise the parsers are kept in order |
| SqlParser.IsOf | pkg/engine/parser/sql/select.go:33-35 | a parser that takes the query consumes its first token; one that declines consumes nothing |
| SqlParser.Is | pkg/engine/parser/statement.go:12 | the answer and the tokens left are exactly IsOf of the stack |
| SqlParser.ParseWith | pkg/engine/parser/statement.go:13 | the result is exactly StatementOf the stack |
| SqlParser.Parse | pkg/engine/parser/parser.go:30-42 | the result is exactly the dispatch over the parsers in order |
| SqlParser.DispatchFirst | pkg/engine/parser/parser.go:30-42 | the first parser that takes the query parses it, its error reported as an invalid query; when none takes it the query type is unknown |
| SqlParser.QueryRoundTrip | pkg/engine/parser/parser.go:30-42 | SELECT, columns, FROM, a table and a WHERE chain parse to the SELECT statement holding them |
| EngineSql.TypeConds | pkg/engine/sql/where.go:89-96 | one IsType condition per type, in order |
| EngineSql.HeadIfTypes | pkg/engine/sql/where.go:89-96 | popping by IsType conditions is popping by their types |
| EngineSql.KeywordIsMeaning | pkg/engine/sql/where.go:39 | the WHERE condition group accepts exactly keyword tokens spelling the word up to case |
| EngineSql.HeadIfWhere | pkg/engine/sql/where.go:39 | the top token is taken exactly when it is the keyword WHERE in any case |
| EngineSql.HeadIfConnector | pkg/engine/sql/where.go:59-62 | the top token is taken exactly when it is the keyword AND or OR in any case |
| EngineSql.ConditionOf | pkg/engine/sql/where.go:80-124 | a condition read consumes exactly its three tokens |
| EngineSql.ConditionMeaning | pkg/engine/sql/where.go:80-124 | a condition is read exactly when a keyword, a comparison and a value token (TokenGte included) lead; otherwise the tokens before the first misfit are consumed and the error tells the end of input from the wrong token |
| EngineSql.ParseWhereCondition | pkg/engine/sql/where.go:80-124 | the result and the tokens left are exactly ConditionOf of the stack |
| EngineSql.WhereOperationOf | pkg/engine/sql/where.go:126-134 | no connector is WhereUndef, a token reading AND up to case WhereAnd, and any other WhereOr |
| EngineSql.WhereClauseOf | pkg/engine/sql/where.go:38-41 | without a WHERE keyword nothing is consumed and there is no clause |
| EngineSql.ParseWhereClause | pkg/engine/sql/where.go:38-78 | the result and the tokens left are exactly WhereClauseOf of the stack |
| EngineSql.ChainFromLeftDeep | pkg/engine/sql/where.go:48-77 | the WHERE loop keeps its chain left-deep |
| EngineSql.WhereClauseLeftDeep | pkg/engine/sql/where.go:38-78 | a parsed clause is a left-deep chain |
| EngineSql.ConnectorTokenMeaning | pkg/engine/sql/where.go:126-134 | a rendered connector is taken as a connector and reads back as itself |
| EngineSql.ConditionOfTokens | pkg/engine/sql/where.go:80-124 | a condition's three tokens read back as that condition |
| EngineSql.ChainStep | pkg/engine/sql/where.go:49-62 | one turn of the WHERE loop adds a node with the condition read and the previous connector |
| EngineSql.ChainFromTokens | pkg/engine/sql/where.go:48-67 | the loop over a rendered chain from any condition on builds the whole chain |
| EngineSql.WhereOfTokens | pkg/engine/sql/where.go:38-78 | WHERE in any case and a rendered chain parse back to the chain, the loop going on as the following tokens decide |
| EngineSql.WhereRoundTrip | pkg/engine/sql/where.go:38-78 | WHERE in any case and a chain's tokens, followed by anything but a connector, parse to that chain and leave the rest |
| EngineSql.WhereErrors | pkg/engine/sql/where.go:48-75 | WHERE alone has no conditions; a trailing connector is an error naming it; a bad target is an invalid WHERE condition |
| EngineSql.ParseColumns | pkg/engine/sql/utils.go:10-40 | the result and the tokens left are exactly ColumnsOf of the stack |
| EngineSql.ColumnsFromList | pkg/engine/sql/utils.go:17-33 | the column loop reads the names and their commas, and a comma right after the last name as well |
| EngineSql.ColumnsRoundTrip | pkg/engine/sql/utils.go:10-40 | names separated by commas, followed by anything but a comma, parse to those columns and leave what follows, even another name |
| EngineSql.ColumnsThenComma | pkg/engine/sql/utils.go:30-32 | a comma after the list is read and the loop goes on at what follows |
| EngineSql.ColumnsTrailingComma | pkg/engine/sql/utils.go:17-39 | a trailing comma is accepted, unlike the first generation; a comma before a non-name is an error naming that token |
| EngineSql.ColumnsErrors | pkg/engine/sql/utils.go:10-40 | a leading comma is an error naming it, and no tokens means no columns |
| EngineSql.ParseTable | pkg/engine/sql/utils.go:42-51 | the result and the tokens left are exactly the first generation's TableOf of the stack |

## Left out

- File I/O: the storage layers of `pkg/storage` and `pkg/engine/storage` are not modelled as I/O. A table's data and schema files are byte sequences, and the two primitives the tables use, a range read and a write at an offset, follow `ReadAt` and `WriteAt` (`FileTable.ReadRange`, `FileTable.WrittenAt`). Open, stat and close failures, a missing file, and the `Replace`, `ReadAfter`, `ReadBefore` and `Delete` operations are not modelled. `TotalRows` takes the file size as the length of the file it stats. Because `Info` and `ReadAll` of `pkg/engine/storage/read.go:25-31` do not prefix the table's path, that file and the schema `load` reads are separate inputs; a missing working-directory file, a stat or read error, is not modelled.
- The table accessors `Name`, `Schema` and `Delete` are not modelled; they return a field or delete files.
- The directory layers and entry points (`pkg/engine/structure` database, schema and processor, `pkg/engine/table/processor.go`, `cmd/*`) only create directories and call `create` or `load`, so they are not modelled. `FileTable.Table.constructor` stands for the struct literal they build.
- Concurrency: the `sync.RWMutex` of `internal/table` rows and tables is not modelled.
- The external tokenizer (`pkg/engine/parser/tokenizer/tokenizer.go`, which wraps a third-party library) is not modelled. `SqlParser.Parse` receives the token sequence the tokenizer would produce, and `SqlParser.SqlTokenizer` only records whether a tokenizer was given.
- `selectStatement.Json` and the `Format`/`Type(size)` strings are not modelled: they are JSON encoding and error-message text.
- Error texts and wrapping are replaced by error kinds. The SQL parsers keep the wrapping as `SqlAst.Wrapped`, because the statement parser's error is reported inside "invalid query".
- Reflection is a closed world of the repository's column types (`Values`, `TableColumn.ColType`). `reflect.New` on an arbitrary type, and types outside the repository, are not modelled.
- The native int width of `pkg/sys/bytes.go` is fixed at 8 bytes. The older `pkg/payload` framing, the `internal/column_types` codecs and `internal/table` take the host width as a parameter, so their 2/4/8/other branches are modelled. A Go `int` is 4 or 8 bytes, so the width-2 branches of `pkg/payload/payload.go` (lines 18-19 and 50-51) are unreachable; they are kept as written and nothing is claimed about them.
- The `sys` helpers (`IntAsBytes`, `BytesAsInt`, `Int64AsBytes`, `BytesAsBool`, `ConcatSlices`, `AddPadding`, `RemovePadding`) are not part of this model's sources. They are specified as little-endian signed integers of exactly W (or 8) bytes, a one-byte bool that is true when non-zero, concatenation, and trailing-zero padding and stripping.
- Go `int` and `int64` overflow in arithmetic is not modelled, except for the range checks the codecs make and the signed width of the length prefixes.
- SysPayload.Read: `IntByteSize + size` is an unbounded sum. In Go a prefix within 8 of the int64 maximum wraps that sum negative, the length check passes and the slice panics; the model reports `SizeExceedsPayload` there instead.
- GridRowSchema.Schema.Load: when the row-size section does not decode, Go assigns whatever `sys.BytesAsInt64` returns beside its error to `rowSize` (`pkg/engine/grid/row/schema.go:39-42`). That helper is not part of this model; the model assumes it returns 0, so the receiver's row size after such a failed load rests on that assumption.
- GridColumnSchema.Schema.Load: when the size or the nullable section does not decode, Go assigns whatever `sys.BytesAsInt` or `sys.BytesAsBool` returns beside its error. Those helpers are not part of this model; the model assumes they return 0 and false, so the receiver's `Size` and `Nullable` after such a failed load rest on that assumption.
- InternalGrid.ColumnFromType: `internal/grid/column_schema.go` calls `data.ColumnFromType(type, size, payload)`, a three-argument form that `pkg/data/column.go` does not declare (it takes a type and a payload). The model reads it as decoding with the type's own sized codec over the closed world of column types, the same decode as the column processor's `FromReflectionType` (`InternalGrid.ColumnFromTypeAgrees`).
- GridRowSchema.Processor.New: the row size is an unbounded sum of the cell widths; int64 overflow of that sum is not modelled.
- FileTable.Table.Row: the offsets `rowSize * (id - 1)` and `rowSize * id` are unbounded integers; int64 overflow for very large ids is not modelled.
- FileTable.Table: Go's schema field is nil until `load` or the constructor sets it. The model always holds a schema, so the nil-dereference panic of a table used before loading is not modelled.
- GridRowSchema.Schema: entries are column schema values. The references the Go struct shares with its caller, and changes the caller could make through them, are not modelled.
- TableColumn.ValidateMeaning: `append(s.Rules, WithTypeOf(s.Type))` may write into spare capacity of the caller's slice. That aliasing is not modelled; the schema's rule list never changes here.
- Storage API drift: `pkg/engine/table/table.go` calls `t.reader.Info(...)` in `TotalRows`, but the `pkg/storage.Reader` it holds declares no `Info` (`pkg/storage/read.go:11-16`). It is read as `os.Stat` of the named file, the `Info` of `pkg/engine/storage`; `FileTable.Table.TotalRows` takes the file's contents as its input.
- Token API drift: `pkg/engine/parser/tokenizer/tokenizer.go` does not declare `TokenWhere`, `TokenAnd`, `TokenOr`, `TokenSelect` or `TokenFrom`, which the first parser generation pops. They are added to `Tokenizer.TokenType`.
- Token API drift: `Token.Is` and a `PopIf` that takes conditions, which `pkg/engine/parser/tokenizer/conditions.go` and `pkg/engine/sql` call, are not in the token source. `Tokenizer.TokenIs` compares the token's text exactly, or up to ASCII case when not case-sensitive, and `Tokenizer.Tokens.PopIfAny` pops the top token when some condition accepts it.
- Case folding is ASCII-only; Unicode case folding is not modelled.
- The value slot of `pkg/engine/sql` accepts `TokenGte`, as written (`EngineSql.ValueTypes`).
- ParserSql.ParseFrom requires a non-empty stack: `parseFrom` is only reached when tokens remain, and on an empty stack its error message would dereference nil.
- The engine column type: `pkg/engine/column.go` declares `ColumnType` as a string with no `Load` or `Bytes` of its own, so `EngineColumnSchema` reads and writes it as the grid `Type` does (`GridType`). The engine column schema calls a `FromType` that `pkg/engine/column_processor.go` does not declare; the model looks the type name up in the processor's registry and decodes with that type's codec.
- Row schema datatypes of `pkg/data` and `pkg/engine` hold non-nil column schemas once built; the nil-entry check of their constructors is modelled through `ColumnChecks`.
- Interface-only files (`pkg/engine/column.go`, `pkg/engine/grid/column/column.go`, `type_processor.go`, `pkg/engine/parser/statement.go`, `pkg/data/data.go`) have no behaviour; they become datatypes.
- `StatementParser` has one implementation in the repository, the SELECT parser, and the model's statement parsers are exactly that one.
