/** The first SQL parser generation (pkg/engine/parser/sql): WHERE chains,
    column lists, table names and the SELECT statement, each consuming the
    shared token stack. Every parsing method is proved equal to a function
    on the token sequence that returns the result and the tokens left. */
module ParserSql {
  import opened Errors
  import opened Tokenizer
  import opened SqlAst

  /** The comparison tokens a condition accepts (where.go:86). */
  const ComparisonTypes: seq<TokenType> := [TokenEq, TokenNotEq, TokenLt, TokenGt, TokenLte, TokenGte]

  /** The value tokens a condition accepts (where.go:94). */
  const ValueTypes: seq<TokenType> :=
    [TokenLiteralString, TokenSingleQuotedString, TokenDoubleQuotedString, TokenInt, TokenFloat]

  /** The connectors between conditions (where.go:60). */
  const ConnectorTypes: seq<TokenType> := [TokenAnd, TokenOr]

  /** The tokens the column list pops (utils.go:19). */
  const ColumnTypes: seq<TokenType> := [TokenComma, TokenKeyword, TokenAsterisk]

  /** The tokens a column may be named by. */
  const NameTypes: seq<TokenType> := [TokenKeyword, TokenAsterisk]

  /** The tokens a table may be named by (utils.go:57). */
  const TableTypes: seq<TokenType> :=
    [TokenKeyword, TokenDoubleQuotedString, TokenSingleQuotedString, TokenLiteralString]

  // ---------------------------------------------------------------------
  // Conditions (where.go:77-107)
  // ---------------------------------------------------------------------

  /** The token types accepted at position `k` of a condition. */
  function Slot(k: nat): seq<TokenType>
    requires k < 3
  {
    if k == 0 then [TokenKeyword] else if k == 1 then ComparisonTypes else ValueTypes
  }

  /** The error for position `k` of a condition at the end of input. */
  function Missing(k: nat): SqlError
  {
    if k == 0 then NoTarget else if k == 1 then NoOperation else NoValue
  }

  /** The error for a wrong token at position `k` of a condition. */
  function Invalid(k: nat, found: string): SqlError
  {
    if k == 0 then InvalidTarget(found) else if k == 1 then InvalidOperation(found) else InvalidValue(found)
  }

  /** parseWhereCondition: a keyword target, a comparison and a value;
      a condition read consumes exactly its three tokens. */
  function ConditionOf(ts: seq<Token>): (r: Step<WhereCondition>)
    ensures r.result.Success? ==> |ts| >= 3 && r.rest == ts[3..]
  {
    if HeadIf(ts, [TokenKeyword]).None? then
      Step(Failure(if |ts| == 0 then NoTarget else InvalidTarget(ts[0].Value)), ts)
    else if HeadIf(ts[1..], ComparisonTypes).None? then
      Step(Failure(if |ts| == 1 then NoOperation else InvalidOperation(ts[1].Value)), ts[1..])
    else if HeadIf(ts[2..], ValueTypes).None? then
      Step(Failure(if |ts| == 2 then NoValue else InvalidValue(ts[2].Value)), ts[2..])
    else
      Step(Success(WhereCondition(ts[0].Value, ts[1].Type, ts[2].Value)), ts[3..])
  }

  /** A condition is read when the first three tokens fit their slots.
      Otherwise the tokens before the first misfit are consumed, the misfit
      is left on the stack, and the error says whether the input ended or
      which token was wrong. */
  lemma ConditionMeaning(ts: seq<Token>)
    ensures var r := ConditionOf(ts);
            r.result.Success? <==>
              |ts| >= 3 && ts[0].Type == TokenKeyword && ts[1].Type in ComparisonTypes && ts[2].Type in ValueTypes
    ensures var r := ConditionOf(ts);
            r.result.Success? ==> r.result.value == WhereCondition(ts[0].Value, ts[1].Type, ts[2].Value)
    ensures var r := ConditionOf(ts);
            r.result.Failure? ==>
              |r.rest| <= |ts| < |r.rest| + 3 &&
              var k := |ts| - |r.rest|;
              r.rest == ts[k..] &&
              (forall j | 0 <= j < k :: ts[j].Type in Slot(j)) &&
              if k == |ts| then r.result.error == Missing(k)
              else ts[k].Type !in Slot(k) && r.result.error == Invalid(k, ts[k].Value)
  {
    if |ts| >= 1 { assert ts[1..] == ts[1..]; }
  }

  /** parseWhereCondition (pkg/engine/parser/sql/where.go:77-107). */
  method ParseWhereCondition(tokens: Tokens) returns (r: Outcome<WhereCondition>)
    requires tokens.Valid()
    modifies tokens
    ensures tokens.Valid()
    ensures Step(r, tokens.stack) == ConditionOf(old(tokens.stack))
  {
    var target := tokens.PopIf([TokenKeyword]);
    if target.None? {
      if !tokens.HasNext() {
        return Failure(NoTarget);
      }
      return Failure(InvalidTarget(tokens.Next().value.Value));
    }
    var operation := tokens.PopIf(ComparisonTypes);
    if operation.None? {
      if !tokens.HasNext() {
        return Failure(NoOperation);
      }
      return Failure(InvalidOperation(tokens.Next().value.Value));
    }
    var value := tokens.PopIf(ValueTypes);
    if value.None? {
      if !tokens.HasNext() {
        return Failure(NoValue);
      }
      return Failure(InvalidValue(tokens.Next().value.Value));
    }
    return Success(WhereCondition(target.value.Value, operation.value.Type, value.value.Value));
  }

  // ---------------------------------------------------------------------
  // WHERE chains (where.go:38-75, 109-117)
  // ---------------------------------------------------------------------

  /** whereOperation (pkg/engine/parser/sql/where.go:109-117): no connector
      is WhereUndef, an OR token is WhereOr and any other token WhereAnd. */
  function WhereOperationOf(t: Option<Token>): (op: WhereOperation)
    ensures op == WhereUndef <==> t.None?
    ensures t.Some? ==> (op == WhereOr <==> t.value.Type == TokenOr)
  {
    if t.None? then WhereUndef
    else if t.value.Type == TokenOr then WhereOr
    else WhereAnd
  }

  /** The end of the WHERE loop: no condition at all, a connector with
      nothing after it, or the chain. */
  function Finish(clause: Option<WhereClause>, last: Option<Token>): Outcome<Option<WhereClause>>
  {
    if clause.None? then Failure(NoConditionsAfterWhere)
    else if last.Some? then Failure(NoConditionsAfter(last.value.Value))
    else Success(clause)
  }

  /** The WHERE loop from a chain `clause` and the connector `last` that
      followed it. */
  function ChainFrom(ts: seq<Token>, clause: Option<WhereClause>, last: Option<Token>): Step<Option<WhereClause>>
    decreases |ts|
  {
    if |ts| == 0 then Step(Finish(clause, last), ts)
    else
      var c := ConditionOf(ts);
      if c.result.Failure? then Step(Failure(Wrapped(CouldNotParseWhereCondition, c.result.error)), c.rest)
      else
        var node := WhereClause(clause, c.result.value, WhereOperationOf(last));
        var op := HeadIf(c.rest, ConnectorTypes);
        if op.None? then Step(Finish(Some(node), None), c.rest)
        else ChainFrom(c.rest[1..], Some(node), op)
  }

  /** parseWhereClause: without a WHERE token nothing is consumed and
      there is no clause. */
  function WhereClauseOf(ts: seq<Token>): (r: Step<Option<WhereClause>>)
    ensures HeadIf(ts, [TokenWhere]).None? ==> r == Step(Success(None), ts)
  {
    if HeadIf(ts, [TokenWhere]).None? then Step(Success(None), ts)
    else ChainFrom(ts[1..], None, None)
  }

  /** parseWhereClause (pkg/engine/parser/sql/where.go:38-75). */
  method ParseWhereClause(tokens: Tokens) returns (r: Outcome<Option<WhereClause>>)
    requires tokens.Valid()
    modifies tokens
    ensures tokens.Valid()
    ensures Step(r, tokens.stack) == WhereClauseOf(old(tokens.stack))
  {
    var where := tokens.PopIf([TokenWhere]);
    if where.None? {
      return Success(None);
    }
    var clause: Option<WhereClause> := None;
    var last: Option<Token> := None;
    while tokens.HasNext()
      invariant tokens.Valid()
      invariant ChainFrom(tokens.stack, clause, last) == WhereClauseOf(old(tokens.stack))
      decreases |tokens.stack|
    {
      var cond := ParseWhereCondition(tokens);
      if cond.Failure? {
        return Failure(Wrapped(CouldNotParseWhereCondition, cond.error));
      }
      clause := Some(WhereClause(clause, cond.value, WhereOperationOf(last)));
      last := tokens.PopIf(ConnectorTypes);
      if last.None? {
        break;
      }
    }
    if clause.None? {
      return Failure(NoConditionsAfterWhere);
    }
    if last.Some? {
      return Failure(NoConditionsAfter(last.value.Value));
    }
    return Success(clause);
  }

  /** The WHERE loop keeps its chain left-deep, and the chain and the
      connector are set together. */
  lemma {:induction false} ChainFromLeftDeep(ts: seq<Token>, clause: Option<WhereClause>, last: Option<Token>)
    requires clause.None? <==> last.None?
    requires clause.Some? ==> LeftDeep(clause.value)
    requires last.Some? ==> last.value.Type in ConnectorTypes
    ensures var r := ChainFrom(ts, clause, last);
            r.result.Success? ==> r.result.value.Some? && LeftDeep(r.result.value.value)
    decreases |ts|
  {
    if |ts| > 0 {
      var c := ConditionOf(ts);
      if c.result.Success? {
        var op := HeadIf(c.rest, ConnectorTypes);
        if op.Some? {
          ChainFromLeftDeep(c.rest[1..], Some(WhereClause(clause, c.result.value, WhereOperationOf(last))), op);
        }
      }
    }
  }

  /** A parsed WHERE clause is a left-deep chain: its first condition has
      WhereUndef and every later one the connector before it. */
  lemma WhereClauseLeftDeep(ts: seq<Token>)
    ensures var r := WhereClauseOf(ts);
            r.result.Success? && r.result.value.Some? ==> LeftDeep(r.result.value.value)
  {
    if HeadIf(ts, [TokenWhere]).Some? {
      ChainFromLeftDeep(ts[1..], None, None);
    }
  }

  // The token form of a chain, for the round trip.

  const WhereToken := Token(TokenWhere, "WHERE")

  /** The tokens of one condition, its value given as a `vt` token. */
  function ConditionTokens(c: WhereCondition, vt: TokenType): seq<Token>
  {
    [Token(TokenKeyword, c.Target), Token(c.Operation, ""), Token(vt, c.Value)]
  }

  function ConnectorToken(op: WhereOperation): Token
  {
    if op == WhereOr then Token(TokenOr, "OR") else Token(TokenAnd, "AND")
  }

  /** The connectors and conditions after the `i`-th condition. */
  function ChainTail(conds: seq<WhereCondition>, ops: seq<WhereOperation>, vt: TokenType, i: nat): seq<Token>
    requires 1 <= i <= |conds| && |ops| == |conds| - 1
    decreases |conds| - i
  {
    if i == |conds| then []
    else [ConnectorToken(ops[i - 1])] + ConditionTokens(conds[i], vt) + ChainTail(conds, ops, vt, i + 1)
  }

  /** WHERE followed by the conditions joined by their connectors. */
  function WhereTokens(conds: seq<WhereCondition>, ops: seq<WhereOperation>, vt: TokenType): seq<Token>
    requires |conds| >= 1 && |ops| == |conds| - 1
  {
    [WhereToken] + ConditionTokens(conds[0], vt) + ChainTail(conds, ops, vt, 1)
  }

  /** Conditions and connectors the parser can read back. */
  predicate Renderable(conds: seq<WhereCondition>, ops: seq<WhereOperation>, vt: TokenType)
  {
    |conds| >= 1 && |ops| == |conds| - 1 && vt in ValueTypes &&
    (forall i | 0 <= i < |conds| :: conds[i].Operation in ComparisonTypes) &&
    (forall i | 0 <= i < |ops| :: ops[i] != WhereUndef)
  }

  /** The chain of the first `i` conditions (none for i == 0). */
  function Prefix(conds: seq<WhereCondition>, ops: seq<WhereOperation>, i: nat): Option<WhereClause>
    requires i <= |conds| && |ops| == |conds| - 1
  {
    if i == 0 then None else Some(Chain(conds[..i], ops[..i - 1]))
  }

  /** The connector before the `i`-th condition (none for i == 0). */
  function Joiner(ops: seq<WhereOperation>, i: nat): Option<Token>
    requires i <= |ops|
  {
    if i == 0 then None else Some(ConnectorToken(ops[i - 1]))
  }

  /** How the loop goes on after reading a whole chain `c`. */
  function Resume(c: WhereClause, rest: seq<Token>): Step<Option<WhereClause>>
  {
    if HeadIf(rest, ConnectorTypes).None? then Step(Success(Some(c)), rest)
    else ChainFrom(rest[1..], Some(c), Some(rest[0]))
  }

  /** A condition's tokens are read back as that condition. */
  lemma ConditionOfTokens(c: WhereCondition, vt: TokenType, tail: seq<Token>)
    requires c.Operation in ComparisonTypes && vt in ValueTypes
    ensures ConditionOf(ConditionTokens(c, vt) + tail) == Step(Success(c), tail)
  {
    assert (ConditionTokens(c, vt) + tail)[3..] == tail;
  }

  /** One turn of the WHERE loop over a condition's tokens. */
  lemma ChainStep(c: WhereCondition, vt: TokenType, tail: seq<Token>, clause: Option<WhereClause>, last: Option<Token>)
    requires c.Operation in ComparisonTypes && vt in ValueTypes
    ensures ChainFrom(ConditionTokens(c, vt) + tail, clause, last) ==
            Resume(WhereClause(clause, c, WhereOperationOf(last)), tail)
  {
    ConditionOfTokens(c, vt, tail);
  }

  /** The node the loop builds from the chain of the first `i` conditions
      is the chain of the first i + 1. */
  lemma NodeIsChain(conds: seq<WhereCondition>, ops: seq<WhereOperation>, i: nat)
    requires |conds| >= 1 && |ops| == |conds| - 1 && i < |conds|
    requires forall k | 0 <= k < |ops| :: ops[k] != WhereUndef
    ensures WhereClause(Prefix(conds, ops, i), conds[i], WhereOperationOf(Joiner(ops, i))) == Chain(conds[..i + 1], ops[..i])
  {
    assert conds[..i + 1][..i] == conds[..i];
    if i > 0 {
      assert ops[..i][..i - 1] == ops[..i - 1];
      assert WhereOperationOf(Joiner(ops, i)) == ops[i - 1];
    }
  }

  /** After a chain that continues, the loop reads the connector and
      resumes at the next condition. */
  lemma ResumeAtConnector(node: WhereClause, op: WhereOperation, next: seq<Token>)
    requires op != WhereUndef
    ensures Resume(node, [ConnectorToken(op)] + next) == ChainFrom(next, Some(node), Some(ConnectorToken(op)))
  {
    assert ([ConnectorToken(op)] + next)[1..] == next;
  }

  /** The loop over the tokens from the `i`-th condition on, as the
      chain of the first `i` conditions and the connector before it left
      it. */
  function ChainFromAt(conds: seq<WhereCondition>, ops: seq<WhereOperation>, vt: TokenType, rest: seq<Token>, i: nat)
    : Step<Option<WhereClause>>
    requires |conds| >= 1 && |ops| == |conds| - 1 && i < |conds|
  {
    ChainFrom(ConditionTokens(conds[i], vt) + (ChainTail(conds, ops, vt, i + 1) + rest), Prefix(conds, ops, i), Joiner(ops, i))
  }

  /** Reading the `i`-th condition extends the chain by one node. */
  lemma ChainAt(conds: seq<WhereCondition>, ops: seq<WhereOperation>, vt: TokenType, rest: seq<Token>, i: nat)
    requires Renderable(conds, ops, vt) && i < |conds|
    ensures ChainFromAt(conds, ops, vt, rest, i) ==
            Resume(Chain(conds[..i + 1], ops[..i]), ChainTail(conds, ops, vt, i + 1) + rest)
  {
    ChainStep(conds[i], vt, ChainTail(conds, ops, vt, i + 1) + rest, Prefix(conds, ops, i), Joiner(ops, i));
    NodeIsChain(conds, ops, i);
  }

  /** After the last condition the loop goes on with what follows. */
  lemma ChainAtLast(conds: seq<WhereCondition>, ops: seq<WhereOperation>, vt: TokenType, rest: seq<Token>, i: nat)
    requires Renderable(conds, ops, vt) && i + 1 == |conds|
    ensures ChainFromAt(conds, ops, vt, rest, i) == Resume(Chain(conds, ops), rest)
  {
    ChainAt(conds, ops, vt, rest, i);
    assert conds[..i + 1] == conds && ops[..i] == ops;
    assert ChainTail(conds, ops, vt, i + 1) + rest == rest;
  }

  /** The tokens after the `i`-th condition start with its connector. */
  lemma ChainTailAt(conds: seq<WhereCondition>, ops: seq<WhereOperation>, vt: TokenType, rest: seq<Token>, i: nat)
    requires |ops| == |conds| - 1 && 1 <= i < |conds|
    ensures ChainTail(conds, ops, vt, i) + rest ==
            [ConnectorToken(ops[i - 1])] + (ConditionTokens(conds[i], vt) + (ChainTail(conds, ops, vt, i + 1) + rest))
  {
  }

  /** Before the last condition the loop reads the connector and goes on
      at the next condition. */
  lemma ChainAtInner(conds: seq<WhereCondition>, ops: seq<WhereOperation>, vt: TokenType, rest: seq<Token>, i: nat)
    requires Renderable(conds, ops, vt) && i + 1 < |conds|
    ensures ChainFromAt(conds, ops, vt, rest, i) == ChainFromAt(conds, ops, vt, rest, i + 1)
  {
    ChainAt(conds, ops, vt, rest, i);
    var node := Chain(conds[..i + 1], ops[..i]);
    var next := ConditionTokens(conds[i + 1], vt) + (ChainTail(conds, ops, vt, i + 2) + rest);
    ChainTailAt(conds, ops, vt, rest, i + 1);
    ResumeAtConnector(node, ops[i], next);
    assert Prefix(conds, ops, i + 1) == Some(node);
  }

  lemma {:induction false} ChainFromTokens(conds: seq<WhereCondition>, ops: seq<WhereOperation>, vt: TokenType,
                                           rest: seq<Token>, i: nat)
    requires Renderable(conds, ops, vt) && i < |conds|
    ensures ChainFromAt(conds, ops, vt, rest, i) == Resume(Chain(conds, ops), rest)
    decreases |conds| - i
  {
    if i + 1 == |conds| {
      ChainAtLast(conds, ops, vt, rest, i);
    } else {
      ChainFromTokens(conds, ops, vt, rest, i + 1);
      ChainBackStep(conds, ops, vt, rest, i);
    }
  }

  /** One condition earlier the loop reaches the same outcome. */
  lemma ChainBackStep(conds: seq<WhereCondition>, ops: seq<WhereOperation>, vt: TokenType, rest: seq<Token>, i: nat)
    requires Renderable(conds, ops, vt) && i + 1 < |conds|
    requires ChainFromAt(conds, ops, vt, rest, i + 1) == Resume(Chain(conds, ops), rest)
    ensures ChainFromAt(conds, ops, vt, rest, i) == Resume(Chain(conds, ops), rest)
  {
    ChainAtInner(conds, ops, vt, rest, i);
  }

  /** A rendered chain parses back to the chain; the loop then goes on as
      the tokens after it decide. */
  lemma WhereOfTokens(conds: seq<WhereCondition>, ops: seq<WhereOperation>, vt: TokenType, rest: seq<Token>)
    requires Renderable(conds, ops, vt)
    ensures WhereClauseOf(WhereTokens(conds, ops, vt) + rest) == Resume(Chain(conds, ops), rest)
  {
    var ts := WhereTokens(conds, ops, vt) + rest;
    assert ts[1..] == ConditionTokens(conds[0], vt) + (ChainTail(conds, ops, vt, 1) + rest);
    ChainFromTokens(conds, ops, vt, rest, 0);
  }

  /** Round trip: WHERE and a chain's tokens, followed by anything but a
      connector, parse to that chain and leave the rest. */
  lemma WhereRoundTrip(conds: seq<WhereCondition>, ops: seq<WhereOperation>, vt: TokenType, rest: seq<Token>)
    requires Renderable(conds, ops, vt)
    requires |rest| == 0 || rest[0].Type !in ConnectorTypes
    ensures WhereClauseOf(WhereTokens(conds, ops, vt) + rest) == Step(Success(Some(Chain(conds, ops))), rest)
  {
    WhereOfTokens(conds, ops, vt, rest);
  }

  /** WHERE alone, and a chain ending in a connector, are errors; the
      latter names the connector. */
  lemma WhereErrors(conds: seq<WhereCondition>, ops: seq<WhereOperation>, vt: TokenType, op: WhereOperation)
    requires Renderable(conds, ops, vt) && op != WhereUndef
    ensures WhereClauseOf([WhereToken]) == Step(Failure(NoConditionsAfterWhere), [])
    ensures WhereClauseOf(WhereTokens(conds, ops, vt) + [ConnectorToken(op)]) ==
              Step(Failure(NoConditionsAfter(ConnectorToken(op).Value)), [])
  {
    assert [WhereToken][1..] == [];
    WhereOfTokens(conds, ops, vt, [ConnectorToken(op)]);
    assert [ConnectorToken(op)][1..] == [];
  }

  // ---------------------------------------------------------------------
  // Column lists and table names (utils.go)
  // ---------------------------------------------------------------------

  /** The end of the column loop: no column, a comma with no column after
      it, or the columns. */
  function FinishColumns(cols: seq<Column>, expectsNext: bool): Outcome<seq<Column>>
  {
    if |cols| == 0 then Failure(NoColumns)
    else if expectsNext then Failure(ColumnExpectedAfterComma)
    else Success(cols)
  }

  /** The column loop with the columns read so far and whether a name is
      due. */
  function ColumnsFrom(ts: seq<Token>, cols: seq<Column>, expectsNext: bool): Step<seq<Column>>
    decreases |ts|
  {
    if |ts| == 0 then Step(FinishColumns(cols, expectsNext), ts)
    else if ts[0].Type !in ColumnTypes then
      if expectsNext then Step(Failure(InvalidColumnName(ts[0].Value)), ts)
      else Step(FinishColumns(cols, expectsNext), ts)
    else if ts[0].Type == TokenComma then
      if expectsNext then Step(Failure(InvalidColumnName(ts[0].Value)), ts[1..])
      else ColumnsFrom(ts[1..], cols, true)
    else if !expectsNext then Step(Failure(UnexpectedColumnName(ts[0].Value)), ts[1..])
    else ColumnsFrom(ts[1..], cols + [Column(ts[0].Value)], false)
  }

  function ColumnsOf(ts: seq<Token>): Step<seq<Column>>
  {
    ColumnsFrom(ts, [], true)
  }

  /** parseColumns (pkg/engine/parser/sql/utils.go:10-54). */
  method ParseColumns(tokens: Tokens) returns (r: Outcome<seq<Column>>)
    requires tokens.Valid()
    modifies tokens
    ensures tokens.Valid()
    ensures Step(r, tokens.stack) == ColumnsOf(old(tokens.stack))
  {
    var cols: seq<Column> := [];
    var expectsNext := true;
    while tokens.HasNext()
      invariant tokens.Valid()
      invariant ColumnsFrom(tokens.stack, cols, expectsNext) == ColumnsOf(old(tokens.stack))
      decreases |tokens.stack|
    {
      var token := tokens.PopIf(ColumnTypes);
      if token.None? {
        if expectsNext {
          return Failure(InvalidColumnName(tokens.Next().value.Value));
        }
        break;
      }
      if token.value.Type == TokenComma {
        if expectsNext {
          return Failure(InvalidColumnName(token.value.Value));
        }
        expectsNext := true;
        continue;
      }
      if !expectsNext {
        return Failure(UnexpectedColumnName(token.value.Value));
      }
      expectsNext := false;
      cols := cols + [Column(token.value.Value)];
    }
    if |cols| == 0 {
      return Failure(NoColumns);
    }
    if expectsNext {
      return Failure(ColumnExpectedAfterComma);
    }
    return Success(cols);
  }

  const CommaToken := Token(TokenComma, ",")

  predicate NameTokens(names: seq<Token>)
  {
    forall i | 0 <= i < |names| :: names[i].Type in NameTypes
  }

  function ColumnsNamed(names: seq<Token>): (cols: seq<Column>)
    ensures |cols| == |names| && forall i | 0 <= i < |names| :: cols[i] == Column(names[i].Value)
  {
    seq(|names|, i requires 0 <= i < |names| => Column(names[i].Value))
  }

  /** The commas and names after the `j`-th name. */
  function ListTail(names: seq<Token>, j: nat): seq<Token>
    requires j <= |names|
    decreases |names| - j
  {
    if j == |names| then [] else [CommaToken, names[j]] + ListTail(names, j + 1)
  }

  /** Names separated by commas. */
  function ListTokens(names: seq<Token>): seq<Token>
    requires |names| >= 1
  {
    [names[0]] + ListTail(names, 1)
  }

  lemma {:induction false} ColumnsFromTail(names: seq<Token>, j: nat, rest: seq<Token>)
    requires NameTokens(names) && 1 <= j <= |names|
    ensures ColumnsFrom(ListTail(names, j) + rest, ColumnsNamed(names[..j]), false) ==
            ColumnsFrom(rest, ColumnsNamed(names), false)
    decreases |names| - j
  {
    if j == |names| {
      assert names[..j] == names;
      assert ListTail(names, j) + rest == rest;
    } else {
      var next := ListTail(names, j + 1) + rest;
      assert ListTail(names, j) + rest == [CommaToken, names[j]] + next;
      ColumnsStep(names, j, next);
      ColumnsFromTail(names, j + 1, rest);
    }
  }

  /** A comma and the `j`-th name add that name's column. */
  lemma ColumnsStep(names: seq<Token>, j: nat, next: seq<Token>)
    requires NameTokens(names) && 1 <= j < |names|
    ensures ColumnsFrom([CommaToken, names[j]] + next, ColumnsNamed(names[..j]), false) ==
            ColumnsFrom(next, ColumnsNamed(names[..j + 1]), false)
  {
    assert names[j].Type in NameTypes;
    assert ([CommaToken, names[j]] + next)[1..] == [names[j]] + next;
    assert ([names[j]] + next)[1..] == next;
    assert ColumnsNamed(names[..j]) + [Column(names[j].Value)] == ColumnsNamed(names[..j + 1]);
  }

  /** Reading a list of names, whatever follows it. */
  lemma ColumnsOfList(names: seq<Token>, rest: seq<Token>)
    requires NameTokens(names) && |names| >= 1
    ensures ColumnsOf(ListTokens(names) + rest) == ColumnsFrom(rest, ColumnsNamed(names), false)
  {
    assert names[0].Type in NameTypes;
    var next := ListTail(names, 1) + rest;
    var ts := [names[0]] + next;
    assert ListTokens(names) + rest == ts;
    assert ts[1..] == next;
    assert [] + [Column(names[0].Value)] == ColumnsNamed(names[..1]);
    assert ColumnsFrom(ts, [], true) == ColumnsFrom(next, ColumnsNamed(names[..1]), false);
    ColumnsFromTail(names, 1, rest);
  }

  /** Round trip: a comma-separated list of names followed by a token that
      is not a comma or a name parses to those columns, in order, and
      leaves that token. */
  lemma ColumnsRoundTrip(names: seq<Token>, rest: seq<Token>)
    requires NameTokens(names) && |names| >= 1
    requires |rest| == 0 || rest[0].Type !in ColumnTypes
    ensures ColumnsOf(ListTokens(names) + rest) == Step(Success(ColumnsNamed(names)), rest)
  {
    ColumnsOfList(names, rest);
  }

  /** No columns, a trailing comma, a leading comma and two names without
      a comma between them are all errors. */
  lemma ColumnsErrors(names: seq<Token>, extra: Token)
    requires NameTokens(names) && |names| >= 1 && extra.Type in NameTypes
    ensures ColumnsOf([]) == Step(Failure(NoColumns), [])
    ensures ColumnsOf(ListTokens(names) + [CommaToken]) == Step(Failure(ColumnExpectedAfterComma), [])
    ensures ColumnsOf([CommaToken] + ListTokens(names)).result == Failure(InvalidColumnName(","))
    ensures ColumnsOf(ListTokens(names) + [extra]) == Step(Failure(UnexpectedColumnName(extra.Value)), [])
  {
    ColumnsOfList(names, [CommaToken]);
    assert [CommaToken][1..] == [];
    ColumnsOfList(names, [extra]);
    assert [extra][1..] == [];
  }

  /** parseTable: one name token is consumed; otherwise nothing is, and the
      error tells the end of input from a wrong token. */
  function TableOf(ts: seq<Token>): (r: Step<Table>)
    ensures r.result.Success? <==> |ts| > 0 && ts[0].Type in TableTypes
    ensures r.result.Success? ==> r.result.value == Table(ts[0].Value) && r.rest == ts[1..]
    ensures r.result.Failure? ==>
              r.rest == ts && r.result.error == (if |ts| == 0 then TableNameExpected else InvalidTableName(ts[0].Value))
  {
    if HeadIf(ts, TableTypes).None? then
      Step(Failure(if |ts| == 0 then TableNameExpected else InvalidTableName(ts[0].Value)), ts)
    else Step(Success(Table(ts[0].Value)), ts[1..])
  }

  /** parseTable (pkg/engine/parser/sql/utils.go:56-65). */
  method ParseTable(tokens: Tokens) returns (r: Outcome<Table>)
    requires tokens.Valid()
    modifies tokens
    ensures tokens.Valid()
    ensures Step(r, tokens.stack) == TableOf(old(tokens.stack))
  {
    var token := tokens.PopIf(TableTypes);
    if token.None? {
      if !tokens.HasNext() {
        return Failure(TableNameExpected);
      }
      return Failure(InvalidTableName(tokens.Next().value.Value));
    }
    return Success(Table(token.value.Value));
  }

  // ---------------------------------------------------------------------
  // SELECT (select.go)
  // ---------------------------------------------------------------------

  const SelectToken := Token(TokenSelect, "SELECT")
  const FromToken := Token(TokenFrom, "FROM")

  /** selectParser.Is (pkg/engine/parser/sql/select.go:33-35): SELECT is
      consumed exactly when it is on top. */
  method IsSelect(tokens: Tokens) returns (b: bool)
    requires tokens.Valid()
    modifies tokens
    ensures tokens.Valid()
    ensures b <==> |old(tokens.stack)| > 0 && old(tokens.stack)[0].Type == TokenSelect
    ensures tokens.stack == if b then old(tokens.stack)[1..] else old(tokens.stack)
  {
    var t := tokens.PopIf([TokenSelect]);
    return t.Some?;
  }

  /** parseFrom: FROM, then a table name. It is only reached with tokens
      left: on an empty stack its error message would dereference nil. */
  function FromOf(ts: seq<Token>): (r: Step<Table>)
    requires |ts| > 0
    ensures ts[0].Type != TokenFrom ==> r == Step(Failure(ExpectedFrom(ts[0].Value)), ts)
    ensures ts[0].Type == TokenFrom ==> r == TableOf(ts[1..])
  {
    if HeadIf(ts, [TokenFrom]).None? then Step(Failure(ExpectedFrom(ts[0].Value)), ts)
    else TableOf(ts[1..])
  }

  /** selectParser.parseFrom (pkg/engine/parser/sql/select.go:68-75). */
  method ParseFrom(tokens: Tokens) returns (r: Outcome<Table>)
    requires tokens.Valid() && |tokens.stack| > 0
    modifies tokens
    ensures tokens.Valid()
    ensures Step(r, tokens.stack) == FromOf(old(tokens.stack))
  {
    var token := tokens.PopIf([TokenFrom]);
    if token.None? {
      return Failure(ExpectedFrom(tokens.Next().value.Value));
    }
    r := ParseTable(tokens);
  }

  /** selectParser.Parse: the columns; then, when tokens remain, FROM and
      a table, an optional WHERE clause and nothing more. */
  function SelectOf(ts: seq<Token>): Step<SelectStatement>
  {
    var cs := ColumnsOf(ts);
    if cs.result.Failure? then Step(Failure(Wrapped(CouldNotParseQueryColumns, cs.result.error)), cs.rest)
    else if |cs.rest| == 0 then Step(Success(SelectStatement(cs.result.value, None, None)), cs.rest)
    else
      var t := FromOf(cs.rest);
      if t.result.Failure? then Step(Failure(Wrapped(CouldNotParseQueryTable, t.result.error)), t.rest)
      else
        var w := WhereClauseOf(t.rest);
        if w.result.Failure? then Step(Failure(Wrapped(CouldNotParseWhereClause, w.result.error)), w.rest)
        else if |w.rest| > 0 then Step(Failure(UnexpectedSymbol(w.rest[0].Value)), w.rest)
        else Step(Success(SelectStatement(cs.result.value, Some(t.result.value), w.result.value)), w.rest)
  }

  /** selectParser.Parse (pkg/engine/parser/sql/select.go:37-66). */
  method ParseSelect(tokens: Tokens) returns (r: Outcome<SelectStatement>)
    requires tokens.Valid()
    modifies tokens
    ensures tokens.Valid()
    ensures Step(r, tokens.stack) == SelectOf(old(tokens.stack))
  {
    var columns := ParseColumns(tokens);
    if columns.Failure? {
      return Failure(Wrapped(CouldNotParseQueryColumns, columns.error));
    }
    var table: Option<Table> := None;
    var where: Option<WhereClause> := None;
    if tokens.HasNext() {
      var t := ParseFrom(tokens);
      if t.Failure? {
        return Failure(Wrapped(CouldNotParseQueryTable, t.error));
      }
      table := Some(t.value);
      var w := ParseWhereClause(tokens);
      if w.Failure? {
        return Failure(Wrapped(CouldNotParseWhereClause, w.error));
      }
      where := w.value;
      if tokens.HasNext() {
        return Failure(UnexpectedSymbol(tokens.Next().value.Value));
      }
    }
    return Success(SelectStatement(columns.value, table, where));
  }

  /** Columns alone make a statement with no table and no WHERE clause. */
  lemma SelectColumnsOnly(names: seq<Token>)
    requires NameTokens(names) && |names| >= 1
    ensures SelectOf(ListTokens(names)) == Step(Success(SelectStatement(ColumnsNamed(names), None, None)), [])
  {
    ColumnsRoundTrip(names, []);
    assert ListTokens(names) + [] == ListTokens(names);
  }

  /** Round trip: columns, FROM, a table name and a WHERE chain parse to
      the statement holding them, with every token consumed. */
  lemma SelectRoundTrip(names: seq<Token>, table: Token, conds: seq<WhereCondition>, ops: seq<WhereOperation>, vt: TokenType)
    requires NameTokens(names) && |names| >= 1 && table.Type in TableTypes && Renderable(conds, ops, vt)
    ensures SelectOf(ListTokens(names) + [FromToken, table] + WhereTokens(conds, ops, vt)) ==
            Step(Success(SelectStatement(ColumnsNamed(names), Some(Table(table.Value)), Some(Chain(conds, ops)))), [])
  {
    var w := WhereTokens(conds, ops, vt);
    var rest := [FromToken, table] + w;
    assert ListTokens(names) + [FromToken, table] + w == ListTokens(names) + rest;
    ColumnsRoundTrip(names, rest);
    assert rest[1..] == [table] + w && ([table] + w)[1..] == w;
    WhereRoundTrip(conds, ops, vt, []);
    assert w + [] == w;
  }

  /** Columns, FROM and a table name parse to a statement with no WHERE
      clause; any other token after the columns where FROM is due is an
      error naming that token. */
  lemma SelectFromTable(names: seq<Token>, table: Token, other: Token)
    requires NameTokens(names) && |names| >= 1 && table.Type in TableTypes
    requires other.Type !in ColumnTypes && other.Type != TokenFrom
    ensures SelectOf(ListTokens(names) + [FromToken, table]) ==
            Step(Success(SelectStatement(ColumnsNamed(names), Some(Table(table.Value)), None)), [])
    ensures SelectOf(ListTokens(names) + [other]).result ==
            Failure(Wrapped(CouldNotParseQueryTable, ExpectedFrom(other.Value)))
  {
    ColumnsRoundTrip(names, [FromToken, table]);
    assert [FromToken, table][1..] == [table] && [table][1..] == [];
    ColumnsRoundTrip(names, [other]);
  }
}
