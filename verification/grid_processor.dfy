/** The type-processor registry of pkg/engine/grid/column/processor.go. A
    TypeProcessor is described by the name its Type method returns and the
    codec its Load method runs, which is what a ColumnType records; a nil
    processor is None. */
module GridProcessor {
  import opened Errors
  import opened ByteSeq
  import opened Values
  import opened Registration
  import GridType

  /** The registration rule applies to a processor as to a reflected type. */
  function AsRType(tp: Option<ColumnType>): (r: RType)
    ensures r != NotAColumn
  {
    match tp
    case None => NilType
    case Some(ct) => Column(ct)
  }

  class Processor {
    var types: Registry

    constructor()
      ensures types == map[]
    {
      types := map[];
    }

    /** processor.TypeProcessor (pkg/engine/grid/column/processor.go:29-36). */
    function TypeProcessor(t: GridType.Type): (r: Result<ColumnType>)
      reads this
      ensures r.Ok? <==> t in types
      ensures r.Ok? ==> r.value == types[t]
      ensures r.Err? ==> r.error == NotFound
    {
      Lookup(types, t)
    }

    /** processor.registerTypeProcessor (pkg/engine/grid/column/processor.go:38-55):
        rejects a nil processor, an empty name and a name already used. */
    method RegisterTypeProcessor(tp: Option<ColumnType>) returns (err: Option<Error>)
      modifies this
      ensures tp == None ==> err == Some(NilProcessor) && types == old(types)
      ensures Registration.Register(old(types), AsRType(tp)).Ok? ==>
                err == None && types == Registration.Register(old(types), AsRType(tp)).value
      ensures tp.Some? && Registration.Register(old(types), AsRType(tp)).Err? ==>
                err == Some(Registration.Register(old(types), AsRType(tp)).error) && types == old(types)
    {
      if tp.None? {
        return Some(NilProcessor);
      }
      var name := tp.value.identifier;
      if GridType.Empty(name) {
        return Some(InvalidIdentifier);
      }
      if name in types {
        return Some(IdentifierUsed);
      }
      types := types[name := tp.value];
      return None;
    }
  }

  function AsRTypes(tps: seq<Option<ColumnType>>): (r: seq<RType>)
    ensures |r| == |tps| && forall i | 0 <= i < |tps| :: r[i] == AsRType(tps[i])
  {
    seq(|tps|, i requires 0 <= i < |tps| => AsRType(tps[i]))
  }

  /** The error registerTypeProcessor reports for one processor against a
      registry, or None when it registers: a nil processor is refused with
      its own error, and any other one by the shared rule. */
  function EntryError(types: Registry, tp: Option<ColumnType>): (r: Option<Error>)
    ensures tp.None? ==> r == Some(NilProcessor)
    ensures tp.Some? ==> (r.None? <==> Registration.Register(types, AsRType(tp)).Ok?)
    ensures tp.Some? && r.Some? ==> r.value == Registration.Register(types, AsRType(tp)).error
    ensures r.Some? <==> Registration.Register(types, AsRType(tp)).Err?
  {
    match tp
    case None => Some(NilProcessor)
    case Some(ct) =>
      match Registration.Register(types, Column(ct))
      case Ok(_) => None
      case Err(e) => Some(e)
  }

  /** NewProcessor (pkg/engine/grid/column/processor.go:13-23): registers the
      list in order and fails as a whole on the first bad registration, with
      that registration's error. */
  method NewProcessor(tps: seq<Option<ColumnType>>) returns (r: Result<Processor>)
    ensures r.Ok? <==> RegisterAll(map[], AsRTypes(tps)).Ok?
    ensures r.Ok? ==> fresh(r.value) && r.value.types == RegisterAll(map[], AsRTypes(tps)).value
    ensures r.Err? ==> exists i | 0 <= i < |tps| ::
              RegisterAll(map[], AsRTypes(tps[..i])).Ok? &&
              Some(r.error) == EntryError(RegisterAll(map[], AsRTypes(tps[..i])).value, tps[i])
  {
    var p := new Processor();
    var i := 0;
    while i < |tps|
      invariant 0 <= i <= |tps|
      invariant RegisterAll(map[], AsRTypes(tps)) == RegisterAll(p.types, AsRTypes(tps)[i..])
      invariant RegisterAll(map[], AsRTypes(tps[..i])) == Ok(p.types)
      invariant fresh(p)
    {
      assert AsRTypes(tps)[i..][1..] == AsRTypes(tps)[i + 1..];
      assert AsRTypes(tps[..i + 1]) == AsRTypes(tps[..i]) + [AsRType(tps[i])];
      RegisterAllSnoc(map[], AsRTypes(tps[..i]), AsRType(tps[i]));
      var err := p.RegisterTypeProcessor(tps[i]);
      if err.Some? {
        assert Some(err.value) == EntryError(RegisterAll(map[], AsRTypes(tps[..i])).value, tps[i]);
        return Err(err.value);
      }
      i := i + 1;
    }
    return Ok(p);
  }
}
