/** The statement trees both SQL parser generations build
    (pkg/engine/parser/statement.go, the WhereCondition and WhereClause
    structs of pkg/engine/parser/sql/where.go and pkg/engine/sql/where.go),
    and the errors they report. */
module SqlAst {
  import opened Errors
  import opened Tokenizer

  datatype WhereOperation = WhereUndef | WhereAnd | WhereOr

  /** One comparison: a target column, a comparison token type and the
      text of the value token. */
  datatype WhereCondition = WhereCondition(Target: string, Operation: TokenType, Value: string)

  /** A node of the left-deep condition chain: the chain so far (nil for
      the first node), the new condition and the connector joining them. */
  datatype WhereClause = WhereClause(Left: Option<WhereClause>, Right: WhereCondition, Operation: WhereOperation)

  datatype Column = Column(Name: string)

  datatype Table = Table(Name: string)

  datatype SelectStatement = SelectStatement(Columns: seq<Column>, Table: Option<Table>, Where: Option<WhereClause>)

  /** The annotation errors.Wrap adds on the way up. */
  datatype Context =
    | CouldNotParseWhereCondition | InvalidWhereCondition
    | CouldNotParseQueryColumns | CouldNotParseQueryTable | CouldNotParseWhereClause
    | InvalidQuery

  /** The parser errors; `found` is the text of the offending token. */
  datatype SqlError =
    | NoTarget | InvalidTarget(found: string)
    | NoOperation | InvalidOperation(found: string)
    | NoValue | InvalidValue(found: string)
    | NoConditionsAfterWhere | NoConditionsAfter(connector: string)
    | InvalidColumnName(found: string) | UnexpectedColumnName(found: string)
    | NoColumns | ColumnExpectedAfterComma
    | TableNameExpected | InvalidTableName(found: string)
    | ExpectedFrom(found: string) | UnexpectedSymbol(found: string)
    | UndefinedTokenizer | UndefinedStatementParser | UnknownQueryType
    | Wrapped(context: Context, cause: SqlError)

  datatype Outcome<+T> = Success(value: T) | Failure(error: SqlError) {
    predicate IsFailure() { Failure? }
    function PropagateFailure<U>(): Outcome<U>
      requires Failure?
    {
      Failure(error)
    }
    function Extract(): T
      requires Success?
    {
      value
    }
  }

  /** What a parsing step returns, with the tokens it left on the stack. */
  datatype Step<+T> = Step(result: Outcome<T>, rest: seq<Token>)

  /** The conditions of a chain, first to last. */
  function Conditions(c: WhereClause): (r: seq<WhereCondition>)
    ensures |r| >= 1 && r[|r| - 1] == c.Right
  {
    match c.Left
    case None => [c.Right]
    case Some(l) => Conditions(l) + [c.Right]
  }

  /** The connectors of a chain, first to last, one fewer than its
      conditions. */
  function Connectors(c: WhereClause): (r: seq<WhereOperation>)
    ensures |r| == |Conditions(c)| - 1
  {
    match c.Left
    case None => []
    case Some(l) => Connectors(l) + [c.Operation]
  }

  /** The chain of conditions `conds` joined by `ops`, built left-deep:
      the first node has no left part and no connector, every later node
      has the chain of its predecessors on its left. */
  function Chain(conds: seq<WhereCondition>, ops: seq<WhereOperation>): (c: WhereClause)
    requires |conds| >= 1 && |ops| == |conds| - 1
    decreases |conds|
  {
    if |conds| == 1 then WhereClause(None, conds[0], WhereUndef)
    else
      WhereClause(Some(Chain(conds[..|conds| - 1], ops[..|ops| - 1])), conds[|conds| - 1], ops[|ops| - 1])
  }

  /** A chain holds the conditions and connectors it was built from, in
      order. */
  lemma ChainParts(conds: seq<WhereCondition>, ops: seq<WhereOperation>)
    requires |conds| >= 1 && |ops| == |conds| - 1
    ensures Conditions(Chain(conds, ops)) == conds && Connectors(Chain(conds, ops)) == ops
  {
    ChainConditions(conds, ops);
    ChainConnectors(conds, ops);
  }

  lemma {:induction false} ChainConditions(conds: seq<WhereCondition>, ops: seq<WhereOperation>)
    requires |conds| >= 1 && |ops| == |conds| - 1
    ensures Conditions(Chain(conds, ops)) == conds
    decreases |conds|
  {
    if |conds| > 1 {
      var n := |conds| - 1;
      var left := Chain(conds[..n], ops[..n - 1]);
      ChainConditions(conds[..n], ops[..n - 1]);
      assert Chain(conds, ops) == WhereClause(Some(left), conds[n], ops[n - 1]);
      assert Conditions(Chain(conds, ops)) == Conditions(left) + [conds[n]];
      assert conds[..n] + [conds[n]] == conds;
    }
  }

  lemma {:induction false} ChainConnectors(conds: seq<WhereCondition>, ops: seq<WhereOperation>)
    requires |conds| >= 1 && |ops| == |conds| - 1
    ensures Connectors(Chain(conds, ops)) == ops
    decreases |conds|
  {
    if |conds| > 1 {
      var n := |conds| - 1;
      var left := Chain(conds[..n], ops[..n - 1]);
      ChainConnectors(conds[..n], ops[..n - 1]);
      assert Chain(conds, ops) == WhereClause(Some(left), conds[n], ops[n - 1]);
      assert Connectors(Chain(conds, ops)) == Connectors(left) + [ops[n - 1]];
      assert ops[..n - 1] + [ops[n - 1]] == ops;
    }
  }

  /** A chain as the parsers build it: the first node carries WhereUndef
      and no later node does. */
  predicate LeftDeep(c: WhereClause)
  {
    match c.Left
    case None => c.Operation == WhereUndef
    case Some(l) => c.Operation != WhereUndef && LeftDeep(l)
  }

  /** Chain with defined connectors builds a left-deep chain. */
  lemma {:induction false} ChainIsLeftDeep(conds: seq<WhereCondition>, ops: seq<WhereOperation>)
    requires |conds| >= 1 && |ops| == |conds| - 1
    requires forall i | 0 <= i < |ops| :: ops[i] != WhereUndef
    ensures LeftDeep(Chain(conds, ops))
    decreases |conds|
  {
    if |conds| > 1 {
      ChainIsLeftDeep(conds[..|conds| - 1], ops[..|ops| - 1]);
    }
  }

  /** Every left-deep chain is the chain of its own conditions and
      connectors, and none of those connectors is WhereUndef. */
  lemma {:induction false} LeftDeepIsChain(c: WhereClause)
    requires LeftDeep(c)
    ensures c == Chain(Conditions(c), Connectors(c))
    ensures forall i | 0 <= i < |Connectors(c)| :: Connectors(c)[i] != WhereUndef
  {
    if c.Left.Some? {
      var l := c.Left.value;
      LeftDeepIsChain(l);
      assert Conditions(c)[..|Conditions(c)| - 1] == Conditions(l);
      assert Connectors(c)[..|Connectors(c)| - 1] == Connectors(l);
    }
  }
}
