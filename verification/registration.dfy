/** The registration rule shared by the type registries of pkg/data/types.go,
    pkg/engine/column_processor.go and pkg/engine/grid/column/processor.go:
    a registry maps identifiers to column types, and registering a type
    checks, in this order, that it is not nil, that it implements Column,
    that its identifier is not empty and that the identifier is not taken. */
module Registration {
  import opened Errors
  import opened ByteSeq
  import opened Values

  type Registry = map<Str, ColumnType>

  /** One registration: the registry it leaves, or the first failed check. */
  function Register(types: Registry, p: RType): (r: Result<Registry>)
    ensures p == NilType ==> r == Err(InvalidType)
    ensures p == NotAColumn ==> r == Err(DoesNotImplement)
    ensures p.Column? && p.ct.identifier == [] ==> r == Err(InvalidIdentifier)
    ensures p.Column? && p.ct.identifier != [] && p.ct.identifier in types ==> r == Err(IdentifierUsed)
    ensures r.Ok? ==> p.Column? && p.ct.identifier !in types
    ensures r.Ok? ==> r.value.Keys == types.Keys + {p.ct.identifier}
    ensures r.Ok? ==> r.value[p.ct.identifier] == p.ct
    ensures r.Ok? ==> forall id | id in types :: r.value[id] == types[id]
  {
    match p
    case NilType => Err(InvalidType)
    case NotAColumn => Err(DoesNotImplement)
    case Column(ct) =>
      if ct.identifier == [] then Err(InvalidIdentifier)
      else if ct.identifier in types then Err(IdentifierUsed)
      else Ok(types[ct.identifier := ct])
  }

  /** Registering a list in order, stopping at the first failure. */
  function RegisterAll(types: Registry, ps: seq<RType>): (r: Result<Registry>)
    decreases |ps|
  {
    if ps == [] then Ok(types)
    else
      var next :- Register(types, ps[0]);
      RegisterAll(next, ps[1..])
  }

  /** A list every entry of which registers: Column types with distinct,
      non-empty identifiers not already in the registry. */
  predicate Registrable(types: Registry, ps: seq<RType>)
  {
    (forall i | 0 <= i < |ps| ::
       ps[i].Column? && ps[i].ct.identifier != [] && ps[i].ct.identifier !in types) &&
    (forall i, j | 0 <= i < j < |ps| ::
       ps[i].Column? && ps[j].Column? ==> ps[i].ct.identifier != ps[j].ct.identifier)
  }

  /** Registering a list succeeds exactly when every entry registers. */
  lemma {:induction false} RegisterAllSucceeds(types: Registry, ps: seq<RType>)
    ensures RegisterAll(types, ps).Ok? <==> Registrable(types, ps)
    decreases |ps|
  {
    if ps != [] {
      var r := Register(types, ps[0]);
      if r.Ok? {
        RegisterAllSucceeds(r.value, ps[1..]);
        if Registrable(types, ps) {
          assert Registrable(r.value, ps[1..]) by {
            forall i | 0 <= i < |ps| - 1
              ensures ps[1..][i].Column? && ps[1..][i].ct.identifier !in r.value
            {
              assert ps[i + 1].ct.identifier != ps[0].ct.identifier;
            }
          }
        }
        if Registrable(r.value, ps[1..]) {
          forall i, j | 0 <= i < j < |ps| && ps[i].Column? && ps[j].Column?
            ensures ps[i].ct.identifier != ps[j].ct.identifier
          {
            if i > 0 {
              assert ps[1..][i - 1] == ps[i] && ps[1..][j - 1] == ps[j];
            } else {
              assert ps[1..][j - 1] == ps[j];
            }
          }
          forall i | 0 <= i < |ps|
            ensures ps[i].Column? && ps[i].ct.identifier != [] && ps[i].ct.identifier !in types
          {
            if i > 0 {
              assert ps[1..][i - 1] == ps[i];
            }
          }
        }
      } else {
        assert !Registrable(types, ps) by {
          assert !(ps[0].Column? && ps[0].ct.identifier != [] && ps[0].ct.identifier !in types);
        }
      }
    }
  }

  /** After a successful registration of a list, each entry is found under
      its identifier and the earlier entries are kept. */
  lemma {:induction false} RegisterAllContents(types: Registry, ps: seq<RType>)
    requires RegisterAll(types, ps).Ok?
    ensures forall id | id in types :: id in RegisterAll(types, ps).value
                                      && RegisterAll(types, ps).value[id] == types[id]
    ensures forall i | 0 <= i < |ps| :: ps[i].Column?
                                      && ps[i].ct.identifier in RegisterAll(types, ps).value
                                      && RegisterAll(types, ps).value[ps[i].ct.identifier] == ps[i].ct
    decreases |ps|
  {
    if ps != [] {
      var next := Register(types, ps[0]).value;
      RegisterAllContents(next, ps[1..]);
      forall i | 0 <= i < |ps|
        ensures ps[i].Column?
        ensures ps[i].ct.identifier in RegisterAll(types, ps).value
        ensures RegisterAll(types, ps).value[ps[i].ct.identifier] == ps[i].ct
      {
        if i > 0 {
          assert ps[1..][i - 1] == ps[i];
        }
      }
    }
  }

  /** Nothing but the listed identifiers is added. */
  lemma {:induction false} RegisterAllOnly(types: Registry, ps: seq<RType>, id: Str)
    requires RegisterAll(types, ps).Ok? && id in RegisterAll(types, ps).value
    ensures id in types || exists i | 0 <= i < |ps| :: ps[i].Column? && ps[i].ct.identifier == id
    decreases |ps|
  {
    if ps != [] && id !in types {
      var next := Register(types, ps[0]).value;
      RegisterAllOnly(next, ps[1..], id);
      if id != ps[0].ct.identifier {
        var i :| 0 <= i < |ps[1..]| && ps[1..][i].Column? && ps[1..][i].ct.identifier == id;
        assert ps[i + 1] == ps[1..][i];
      }
    }
  }

  /** Registering one more entry continues from the registry the list left,
      or keeps the list's error. */
  lemma {:induction false} RegisterAllSnoc(types: Registry, ps: seq<RType>, p: RType)
    ensures RegisterAll(types, ps + [p]) ==
            if RegisterAll(types, ps).Ok? then Register(RegisterAll(types, ps).value, p)
            else RegisterAll(types, ps)
    decreases |ps|
  {
    if ps == [] {
      assert ps + [p] == [p];
    } else {
      assert (ps + [p])[1..] == ps[1..] + [p];
      var r := Register(types, ps[0]);
      if r.Ok? {
        RegisterAllSnoc(r.value, ps[1..], p);
      }
    }
  }

  /** Looking an identifier up: the registered type, or NotFound. */
  function Lookup(types: Registry, identifier: Str): (r: Result<ColumnType>)
    ensures r.Ok? <==> identifier in types
    ensures r.Ok? ==> r.value == types[identifier]
    ensures r.Err? ==> r.error == NotFound
  {
    if identifier in types then Ok(types[identifier]) else Err(NotFound)
  }
}
