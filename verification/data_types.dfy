/** The type registry of pkg/data/types.go. */
module DataTypes {
  import opened Errors
  import opened ByteSeq
  import opened Values
  import opened Registration

  class Types {
    var types: Registry

    constructor()
      ensures types == map[]
    {
      types := map[];
    }

    /** Types.Get (pkg/data/types.go:25-32). */
    function Get(identifier: Str): (r: Result<ColumnType>)
      reads this
      ensures r.Ok? <==> identifier in types
      ensures r.Ok? ==> r.value == types[identifier]
      ensures r.Err? ==> r.error == NotFound
    {
      Lookup(types, identifier)
    }

    /** Types.register (pkg/data/types.go:34-55): on failure the registry is
        unchanged; on success exactly the type's identifier is added. */
    method Register(p: RType) returns (err: Option<Error>)
      modifies this
      ensures Registration.Register(old(types), p).Ok? ==>
                err == None && types == Registration.Register(old(types), p).value
      ensures Registration.Register(old(types), p).Err? ==>
                err == Some(Registration.Register(old(types), p).error) && types == old(types)
    {
      match p
      case NilType =>
        return Some(InvalidType);
      case NotAColumn =>
        return Some(DoesNotImplement);
      case Column(ct) =>
        var identifier := ct.identifier;
        if identifier == [] {
          return Some(InvalidIdentifier);
        }
        if identifier in types {
          return Some(IdentifierUsed);
        }
        types := types[identifier := ct];
        return None;
    }
  }

  /** NewTypes (pkg/data/types.go:9-19): registers the list in order and
      fails as a whole on the first bad entry. */
  method NewTypes(ps: seq<RType>) returns (r: Result<Types>)
    ensures r.Ok? <==> RegisterAll(map[], ps).Ok?
    ensures r.Ok? ==> fresh(r.value) && r.value.types == RegisterAll(map[], ps).value
    ensures r.Err? ==> r.error == RegisterAll(map[], ps).error
  {
    var t := new Types();
    var i := 0;
    while i < |ps|
      invariant 0 <= i <= |ps|
      invariant RegisterAll(map[], ps) == RegisterAll(t.types, ps[i..])
      invariant fresh(t)
    {
      assert ps[i..][1..] == ps[i + 1..];
      var err := t.Register(ps[i]);
      if err.Some? {
        return Err(err.value);
      }
      i := i + 1;
    }
    return Ok(t);
  }
}
