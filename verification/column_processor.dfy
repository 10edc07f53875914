/** The column processor of pkg/engine/column_processor.go: a type registry
    plus decoding through a reflected type. */
module EngineColumnProcessor {
  import opened Errors
  import opened ByteSeq
  import opened Values
  import opened Registration
  import ColumnCodec

  class ColumnProcessor {
    var types: Registry

    constructor()
      ensures types == map[]
    {
      types := map[];
    }

    /** columnProcessor.ReflectionType (pkg/engine/column_processor.go:45-52). */
    function ReflectionType(identifier: Str): (r: Result<ColumnType>)
      reads this
      ensures r.Ok? <==> identifier in types
      ensures r.Ok? ==> r.value == types[identifier]
      ensures r.Err? ==> r.error == NotFound
    {
      Lookup(types, identifier)
    }

    /** columnProcessor.register (pkg/engine/column_processor.go:54-75). */
    method Register(p: RType) returns (err: Option<Error>)
      modifies this
      ensures Registration.Register(old(types), p).Ok? ==>
                err == None && types == Registration.Register(old(types), p).value
      ensures Registration.Register(old(types), p).Err? ==>
                err == Some(Registration.Register(old(types), p).error) && types == old(types)
    {
      if p.NilType? {
        return Some(InvalidType);
      }
      if p.NotAColumn? {
        return Some(DoesNotImplement);
      }
      var identifier := p.ct.identifier;
      if identifier == [] {
        return Some(InvalidIdentifier);
      }
      if identifier in types {
        return Some(IdentifierUsed);
      }
      types := types[identifier := p.ct];
      return None;
    }
  }

  /** columnProcessor.FromReflectionType (pkg/engine/column_processor.go:32-43):
      decodes with the type's own codec. It reads no registry state, so it is
      a function of its arguments alone. A nil type panics on the Implements
      call. */
  function FromReflectionType(t: RType, size: int, payload: seq<byte>): (r: Result<Value>)
    ensures t == NilType ==> r == Err(Panic)
    ensures t == NotAColumn ==> r == Err(DoesNotImplement)
    ensures t.Column? ==> r.Ok? == ColumnCodec.UnmarshalAs(t.ct, size, payload).Ok?
    ensures t.Column? && r.Ok? ==> r.value == ColumnCodec.UnmarshalAs(t.ct, size, payload).value
    ensures t.Column? && r.Err? ==> r.error == CannotParseColumn(ColumnCodec.UnmarshalAs(t.ct, size, payload).error)
  {
    match t
    case NilType => Err(Panic)
    case NotAColumn => Err(DoesNotImplement)
    case Column(ct) =>
      var res := ColumnCodec.UnmarshalAs(ct, size, payload);
      if res.Err? then Err(CannotParseColumn(res.error)) else res
  }

  /** NewColumnProcessor (pkg/engine/column_processor.go:16-26). */
  method NewColumnProcessor(ps: seq<RType>) returns (r: Result<ColumnProcessor>)
    ensures r.Ok? <==> RegisterAll(map[], ps).Ok?
    ensures r.Ok? ==> fresh(r.value) && r.value.types == RegisterAll(map[], ps).value
    ensures r.Err? ==> r.error == RegisterAll(map[], ps).error
  {
    var t := new ColumnProcessor();
    var i := 0;
    while i < |ps|
      invariant 0 <= i <= |ps|
      invariant RegisterAll(map[], ps) == RegisterAll(t.types, ps[i..])
      invariant fresh(t)
    {
      assert ps[i..][1..] == ps[i + 1..];
      var err := t.Register(ps[i]);
      if err.Some? {
        return Err(err.value);
      }
      i := i + 1;
    }
    return Ok(t);
  }
}
