/** The column schema of pkg/engine/grid/column/schema.go. Unlike the other
    generations, a cell carries a flag byte only on a nullable column, a
    value reaches the codec without validation, and Load fills the receiver
    field by field, so a failed load leaves it partly overwritten.

    The fields are a value (`Fields`) for every read-only method; the class
    `Schema` holds them where Load changes them in place. */
module GridColumnSchema {
  import opened Errors
  import opened ByteSeq
  import opened Values
  import opened SysPayload
  import opened Registration
  import opened ColumnCodec
  import GridType

  datatype Fields = Fields(
    Type: GridType.Type,
    Name: Str,
    Default: Option<seq<byte>>,
    Size: Int64,
    Nullable: bool)

  /** The zero schema `&column.Schema{}`. */
  const Zero: Fields := Fields([], [], None, 0, false)

  /** Schema.ValidateColumn (pkg/engine/grid/column/schema.go:20-28): a nil
      value needs a nullable column, and a value's Type() must be the
      schema's type. */
  function ValidateColumn(s: Fields, v: Option<Value>): (r: Option<Error>)
    ensures r.None? <==> (v.None? ==> s.Nullable) && (v.Some? ==> TypeOf(v.value).identifier == s.Type)
    ensures v.None? && !s.Nullable ==> r == Some(NotNullable)
    ensures v.Some? && r.Some? ==> r == Some(TypeMismatch)
  {
    if !s.Nullable && v.None? then Some(NotNullable)
    else if v.Some? && TypeOf(v.value).identifier != s.Type then Some(TypeMismatch)
    else None
  }

  /** Schema.paddingSize: the flag byte, present on nullable columns only. */
  function PaddingSize(s: Fields): nat
  {
    if s.Nullable then 1 else 0
  }

  /** Schema.PayloadSize (pkg/engine/grid/column/schema.go:72-84): the column
      size plus the flag byte of a nullable column. */
  function PayloadSize(s: Fields): (n: int)
    ensures n == s.Size + PaddingSize(s)
    ensures s.Nullable ==> n == s.Size + 1
    ensures !s.Nullable ==> n == s.Size
  {
    if s.Nullable then s.Size + PaddingSize(s) else s.Size
  }

  /** The specification of pack: a zeroed buffer of PayloadSize bytes (a
      negative size panics); a non-nil payload gets the 0xFF flag on a
      nullable column and is copied after the flag, truncated or
      zero-filled to the column size. */
  function Packed(s: Fields, payload: Option<seq<byte>>): (r: Result<seq<byte>>)
    ensures PayloadSize(s) < 0 ==> r == Err(Panic)
    ensures r.Ok? ==> |r.value| == PayloadSize(s)
    ensures payload.None? ==> (r.Ok? <==> PayloadSize(s) >= 0)
    ensures payload.None? && r.Ok? ==> r.value == Zeros(PayloadSize(s))
    ensures payload.Some? ==> (r.Ok? <==> s.Size >= 0)
    ensures payload.Some? && r.Ok? ==>
              (s.Nullable ==> r.value[0] == 0xFF) && r.value[PaddingSize(s)..] == Fit(payload.value, s.Size)
  {
    var n := PayloadSize(s);
    if n < 0 then Err(Panic)
    else if payload.None? then Ok(Zeros(n))
    else if s.Nullable && n == 0 then Err(Panic)
    else Ok((if s.Nullable then [0xFF] else []) + Fit(payload.value, n - PaddingSize(s)))
  }

  /** Schema.pack (pkg/engine/grid/column/schema.go:121-132). */
  method Pack(s: Fields, payload: Option<seq<byte>>) returns (r: Result<seq<byte>>)
    ensures r == Packed(s, payload)
  {
    var n := PayloadSize(s);
    if n < 0 {
      return Err(Panic);
    }
    var bytes := new byte[n](_ => 0);
    if payload.None? {
      assert bytes[..] == Zeros(n);
      return Ok(bytes[..]);
    }
    if s.Nullable {
      if bytes.Length == 0 {
        return Err(Panic);
      }
      bytes[0] := 0xFF;
    }
    var pad := PaddingSize(s);
    var src := payload.value;
    var m := if |src| < n - pad then |src| else n - pad;
    forall i | 0 <= i < m {
      bytes[pad + i] := src[i];
    }
    assert bytes[pad..] == Fit(src, n - pad);
    assert bytes[..] == (if s.Nullable then [0xFF] else []) + Fit(src, n - pad) by {
      assert bytes[..] == bytes[..pad] + bytes[pad..];
    }
    return Ok(bytes[..]);
  }

  /** Schema.unpack (pkg/engine/grid/column/schema.go:134-144): the payload
      itself on a not-nullable column; else nil for a 0x00 flag and the
      bytes after the flag otherwise. An empty payload has no flag to read. */
  function Unpacked(s: Fields, payload: seq<byte>): Result<Option<seq<byte>>>
  {
    if !s.Nullable then Ok(Some(payload))
    else if |payload| == 0 then Err(Panic)
    else if payload[0] == 0 then Ok(None)
    else Ok(Some(payload[1..]))
  }

  /** unpack undoes pack: a payload of exactly the column size comes back
      unchanged, and a nil comes back nil on a nullable column. */
  lemma UnpackPack(s: Fields, payload: Option<seq<byte>>)
    requires s.Size >= 0
    requires payload.Some? ==> |payload.value| == s.Size
    requires payload.None? ==> s.Nullable
    ensures Packed(s, payload).Ok? && Unpacked(s, Packed(s, payload).value) == Ok(payload)
  {
    if payload.Some? {
      var p := Packed(s, payload).value;
      assert Fit(payload.value, s.Size) == payload.value;
      if s.Nullable {
        assert p[1..] == payload.value;
      }
    }
  }

  /** The cell ColumnBytes returns: the value's codec output at the column
      size (its error passed on), packed. The value is not validated. */
  function CellBytes(s: Fields, v: Option<Value>): (r: Result<seq<byte>>)
    ensures v.Some? && MarshalValue(v.value, s.Size).Err? ==> r == Err(MarshalValue(v.value, s.Size).error)
    ensures r.Ok? ==> |r.value| == PayloadSize(s)
    ensures v.None? ==> (r.Ok? <==> PayloadSize(s) >= 0)
    ensures v.None? && r.Ok? ==> r.value == Zeros(PayloadSize(s))
    ensures v.Some? && r.Ok? ==>
              (s.Nullable ==> r.value[0] == 0xFF) &&
              MarshalValue(v.value, s.Size) == Ok(r.value[PaddingSize(s)..])
  {
    if v.None? then Packed(s, None)
    else
      var payload :- MarshalValue(v.value, s.Size);
      assert Fit(payload, s.Size) == payload;
      Packed(s, Some(payload))
  }

  /** Schema.ColumnBytes (pkg/engine/grid/column/schema.go:86-96). */
  method ColumnBytes(s: Fields, v: Option<Value>) returns (r: Result<seq<byte>>)
    ensures r == CellBytes(s, v)
  {
    var payload: Option<seq<byte>> := None;
    if v.Some? {
      var bytes :- MarshalValue(v.value, s.Size);
      payload := Some(bytes);
    }
    r := Pack(s, payload);
  }

  /** Schema.Column (pkg/engine/grid/column/schema.go:98-119): the type
      processor is looked up first, then the payload is unpacked; a nil on
      a nullable column is nil, anything else goes to the type's codec at
      the column size. */
  function Column(types: Registry, s: Fields, payload: seq<byte>): (r: Result<Option<Value>>)
    ensures s.Type !in types ==> r == Err(NotFound)
    ensures s.Type in types && s.Nullable && |payload| == 0 ==> r == Err(Panic)
    ensures r == Ok(None) <==> s.Type in types && s.Nullable && |payload| > 0 && payload[0] == 0
    ensures r.Ok? && r.value.Some? ==>
              s.Type in types && (s.Nullable ==> |payload| > 0 && payload[0] != 0) &&
              UnmarshalAs(types[s.Type], s.Size, payload[PaddingSize(s)..]) == Ok(r.value.value)
  {
    var ct :- Lookup(types, s.Type);
    var body :- Unpacked(s, payload);
    if body.None? then
      (if s.Nullable then Ok(None) else Err(NullInNotNullable))
    else
      var v :- UnmarshalAs(ct, s.Size, body.value);
      Ok(Some(v))
  }

  /** A value a cell gives back: the schema's type is registered, a nil
      only on a nullable column, and a value of the registered type whose
      codec round-trips it at the column size. */
  predicate CellRoundTrips(types: Registry, s: Fields, v: Option<Value>)
  {
    s.Size >= 0 && s.Type in types &&
    (v.None? ==> s.Nullable) &&
    (v.Some? ==> types[s.Type] == TypeOf(v.value) && RoundTrips(v.value, s.Size))
  }

  /** Column undoes ColumnBytes. */
  lemma CellRoundTrip(types: Registry, s: Fields, v: Option<Value>)
    requires CellRoundTrips(types, s, v)
    ensures CellBytes(s, v).Ok? && Column(types, s, CellBytes(s, v).value) == Ok(v)
  {
    if v.Some? {
      CodecRoundTrip(v.value, s.Size);
      UnpackPack(s, Some(MarshalValue(v.value, s.Size).value));
    } else {
      UnpackPack(s, None);
    }
  }

  /** ColumnBytes does not validate: a nil written to a not-nullable column
      is a run of zeros, which Column reads back as a value, not as nil. */
  lemma NilOnNotNullable(types: Registry, s: Fields)
    requires !s.Nullable && s.Size >= 0 && s.Type in types
    ensures CellBytes(s, None) == Ok(Zeros(s.Size))
    ensures Column(types, s, Zeros(s.Size)) != Ok(None)
  {
  }

  /** Schema.validate (pkg/engine/grid/column/schema.go:150-158): a name,
      then a type, must be present. */
  function Validate(s: Fields): (r: Option<Error>)
    ensures r.None? <==> s.Name != [] && !GridType.Empty(s.Type)
    ensures s.Name == [] ==> r == Some(EmptyName)
    ensures s.Name != [] && GridType.Empty(s.Type) ==> r == Some(EmptyType)
  {
    if s.Name == [] then Some(EmptyName)
    else if GridType.Empty(s.Type) then Some(EmptyType)
    else None
  }

  /** The default section: the raw default, or nothing for a nil one. */
  function DefaultBytes(s: Fields): seq<byte>
  {
    if s.Default.Some? then s.Default.value else []
  }

  /** The five section bodies of Bytes, in order: type, default, name,
      column size and nullable flag. */
  function Sections(s: Fields): (r: seq<seq<byte>>)
    ensures |r| == 5
  {
    [GridType.Bytes(s.Type), DefaultBytes(s), s.Name, IntAsBytes(s.Size), BoolAsBytes(s.Nullable)]
  }

  /** Schema.Bytes (pkg/engine/grid/column/schema.go:30-37): never fails. */
  function Bytes(s: Fields): seq<byte>
  {
    FrameAll(Sections(s))
  }

  /** sys.BytesAsInt taken into a Go int field. */
  function LoadSize(b: seq<byte>): (r: Result<Int64>)
    ensures r.Ok? <==> BytesAsInt(b).Ok?
    ensures r.Ok? ==> IntAsBytes(r.value) == b
  {
    var size :- BytesAsInt(b);
    BytesAsIntInverse(b);
    Pow256Values();
    Ok(size)
  }

  /** The specification of Schema.Load: the fields after the call and the
      error it returns. Each field is assigned as its section is read, the
      type and the size and the flag to their zero values when their
      section does not load; a failure leaves the later fields as they
      were. */
  function Loaded(s: Fields, payload: seq<byte>): (Fields, Option<Error>)
  {
    match ReadAllSpec(payload)
    case Err(e) => (s, Some(e))
    case Ok(ps) =>
      if |ps| != 5 then (s, Some(SectionCount))
      else LoadedSections(s, ps)
  }

  /** Loaded once the payload has split into its five sections: type,
      default, name, size and nullable flag. */
  function LoadedSections(s: Fields, ps: seq<seq<byte>>): (Fields, Option<Error>)
    requires |ps| == 5
  {
    match GridType.Load(ps[0])
    case Err(e) => (s.(Type := []), Some(e))
    case Ok(t) =>
      var s1 := s.(Type := t);
      if !ValidUtf8(ps[2]) then (s1, Some(InvalidUtf8))
      else
        var s2 := s1.(Name := ps[2]);
        match LoadSize(ps[3])
        case Err(e) => (s2.(Size := 0), Some(e))
        case Ok(size) =>
          var s3 := s2.(Size := size);
          match BytesAsBool(ps[4])
          case Err(e) => (s3.(Nullable := false), Some(e))
          case Ok(nullable) =>
            var s4 := s3.(Nullable := nullable, Default := Some(ps[1]));
            (s4, Validate(s4))
  }

  /** The Go struct, for Load, which assigns its fields in place. */
  class Schema {
    var Type: GridType.Type
    var Name: Str
    var Default: Option<seq<byte>>
    var Size: Int64
    var Nullable: bool

    /** `&column.Schema{}`. */
    constructor()
      ensures Value() == Zero
    {
      Type := [];
      Name := [];
      Default := None;
      Size := 0;
      Nullable := false;
    }

    function Value(): Fields
      reads this
    {
      Fields(Type, Name, Default, Size, Nullable)
    }

    /** Schema.Load (pkg/engine/grid/column/schema.go:39-70). */
    method Load(payload: seq<byte>) returns (err: Option<Error>)
      modifies this
      ensures (Value(), err) == Loaded(old(Value()), payload)
    {
      var payloads := ReadAll(payload);
      if payloads.Err? {
        return Some(payloads.error);
      }
      var ps := payloads.value;
      if |ps| != 5 {
        return Some(SectionCount);
      }
      err := LoadSections(ps);
    }

    /** The rest of Load (schema.go:47-69), field by field over the five
        sections. */
    method LoadSections(ps: seq<seq<byte>>) returns (err: Option<Error>)
      requires |ps| == 5
      modifies this
      ensures (Value(), err) == LoadedSections(old(Value()), ps)
    {
      var t := GridType.Load(ps[0]);
      Type := if t.Ok? then t.value else [];
      if t.Err? {
        return Some(t.error);
      }
      if !ValidUtf8(ps[2]) {
        return Some(InvalidUtf8);
      }
      Name := ps[2];
      var size := LoadSize(ps[3]);
      Size := if size.Ok? then size.value else 0;
      if size.Err? {
        return Some(size.error);
      }
      var nullable := BytesAsBool(ps[4]);
      Nullable := if nullable.Ok? then nullable.value else false;
      if nullable.Err? {
        return Some(nullable.error);
      }
      Default := Some(ps[1]);
      return Validate(Value());
    }
  }

  /** A load that succeeds read five sections, overwrites every field (the
      result does not depend on the receiver), and leaves a UTF-8 name and
      type, neither empty, and the raw default section. */
  lemma LoadOverwrites(a: Fields, b: Fields, payload: seq<byte>)
    requires Loaded(a, payload).1.None?
    ensures Loaded(b, payload) == Loaded(a, payload)
    ensures ReadAllSpec(payload).Ok? && |ReadAllSpec(payload).value| == 5
    ensures var s := Loaded(a, payload).0;
            s.Name != [] && s.Type != [] && ValidUtf8(s.Name) && ValidUtf8(s.Type) &&
            s.Default == Some(ReadAllSpec(payload).value[1])
  {
  }

  /** A name section that is not UTF-8 fails the load after the type has
      already been assigned: the receiver keeps its old name, size, flag
      and default but has the new type. */
  lemma LoadPartial(s: Fields, payload: seq<byte>)
    requires ReadAllSpec(payload).Ok? && |ReadAllSpec(payload).value| == 5
    requires ValidUtf8(ReadAllSpec(payload).value[0]) && !ValidUtf8(ReadAllSpec(payload).value[2])
    ensures Loaded(s, payload) == (s.(Type := ReadAllSpec(payload).value[0]), Some(InvalidUtf8))
  {
  }

  /** A schema whose sections fit a native int length prefix and whose
      names are UTF-8. */
  predicate Storable(s: Fields)
  {
    ValidUtf8(s.Type) && ValidUtf8(s.Name) &&
    Framable(s.Type) && Framable(s.Name) && Framable(DefaultBytes(s))
  }

  /** The schema that comes back from Bytes: a nil default reads back as an
      empty one. */
  function Reloaded(s: Fields): Fields
  {
    s.(Default := Some(DefaultBytes(s)))
  }

  /** Loading what Bytes wrote, into any receiver, restores every field (a
      nil default as an empty one) and reports what validation finds. */
  lemma LoadOfBytes(receiver: Fields, s: Fields)
    requires Storable(s)
    ensures Loaded(receiver, Bytes(s)) == (Reloaded(s), Validate(s))
  {
    var ss := Sections(s);
    Pow256Values();
    assert AllFramable(ss);
    ReadAllRoundTrip(ss);
    IntBytesRoundTrip(s.Size);
  }
}
