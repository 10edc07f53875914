/** The second SQL parser generation (pkg/engine/sql): the WHERE clause,
    column list and table name parsers rewritten over token conditions.
    WHERE, AND and OR are keyword tokens matched up to case, and the
    column loop stops at the first name not followed by a comma. Where a
    slot accepts the same tokens as the first generation the definitions
    of ParserSql are reused. */
module EngineSql {
  import opened Errors
  import opened Tokenizer
  import opened SqlAst
  import ParserSql

  // ---------------------------------------------------------------------
  // Token conditions
  // ---------------------------------------------------------------------

  /** One IsType condition per type, in order, as the calls list them. */
  function TypeConds(types: seq<TokenType>): (cs: seq<Cond>)
    ensures |cs| == |types| && forall i | 0 <= i < |types| :: cs[i] == IsType(types[i])
  {
    seq(|types|, i requires 0 <= i < |types| => IsType(types[i]))
  }

  /** Popping by IsType conditions is popping by their types. */
  lemma HeadIfTypes(ts: seq<Token>, types: seq<TokenType>)
    ensures HeadIfAny(ts, TypeConds(types)) == HeadIf(ts, types)
  {
    var cs := TypeConds(types);
    if |ts| > 0 {
      if ts[0].Type in types {
        var i :| 0 <= i < |types| && types[i] == ts[0].Type;
        assert cs[i](ts[0]);
      } else {
        forall i | 0 <= i < |cs|
          ensures !cs[i](ts[0])
        {
          assert cs[i] == IsType(types[i]);
        }
      }
    }
  }

  /** A keyword token spelling `word` up to case. */
  predicate IsKeyword(tok: Token, word: string)
  {
    tok.Type == TokenKeyword && EqualFold(tok.Value, word)
  }

  /** CondGroup(IsType(TokenKeyword), Is(word, false)). */
  function KeywordIs(word: string): Cond
  {
    CondGroup([IsType(TokenKeyword), Is(word, false)])
  }

  lemma KeywordIsMeaning(word: string, tok: Token)
    ensures KeywordIs(word)(tok) <==> IsKeyword(tok, word)
  {
    var conds := [IsType(TokenKeyword), Is(word, false)];
    assert KeywordIs(word)(tok) <==> conds[0](tok) && conds[1](tok);
  }

  /** AND or OR, up to case. */
  predicate IsConnector(tok: Token)
  {
    IsKeyword(tok, "AND") || IsKeyword(tok, "OR")
  }

  const WhereConds: seq<Cond> := [KeywordIs("WHERE")]

  const ConnectorConds: seq<Cond> := [KeywordIs("AND"), KeywordIs("OR")]

  lemma HeadIfWhere(ts: seq<Token>)
    ensures HeadIfAny(ts, WhereConds) == if |ts| > 0 && IsKeyword(ts[0], "WHERE") then Some(ts[0]) else None
  {
    if |ts| > 0 {
      KeywordIsMeaning("WHERE", ts[0]);
      assert AnyHolds(WhereConds, ts[0]) <==> WhereConds[0](ts[0]);
    }
  }

  lemma HeadIfConnector(ts: seq<Token>)
    ensures HeadIfAny(ts, ConnectorConds) == if |ts| > 0 && IsConnector(ts[0]) then Some(ts[0]) else None
  {
    if |ts| > 0 {
      KeywordIsMeaning("AND", ts[0]);
      KeywordIsMeaning("OR", ts[0]);
      assert AnyHolds(ConnectorConds, ts[0]) <==> ConnectorConds[0](ts[0]) || ConnectorConds[1](ts[0]);
    }
  }

  /** The value tokens a condition accepts (where.go:104-111): those of
      the first generation and, in addition, TokenGte. */
  const ValueTypes: seq<TokenType> := ParserSql.ValueTypes + [TokenGte]

  // ---------------------------------------------------------------------
  // Conditions (where.go:80-124)
  // ---------------------------------------------------------------------

  /** The token types accepted at position `k` of a condition. */
  function Slot(k: nat): seq<TokenType>
    requires k < 3
  {
    if k == 0 then [TokenKeyword] else if k == 1 then ParserSql.ComparisonTypes else ValueTypes
  }

  /** parseWhereCondition: a keyword target, a comparison and a value;
      a condition read consumes exactly its three tokens. */
  function ConditionOf(ts: seq<Token>): (r: Step<WhereCondition>)
    ensures r.result.Success? ==> |ts| >= 3 && r.rest == ts[3..]
  {
    if HeadIf(ts, [TokenKeyword]).None? then
      Step(Failure(if |ts| == 0 then NoTarget else InvalidTarget(ts[0].Value)), ts)
    else if HeadIf(ts[1..], ParserSql.ComparisonTypes).None? then
      Step(Failure(if |ts| == 1 then NoOperation else InvalidOperation(ts[1].Value)), ts[1..])
    else if HeadIf(ts[2..], ValueTypes).None? then
      Step(Failure(if |ts| == 2 then NoValue else InvalidValue(ts[2].Value)), ts[2..])
    else
      Step(Success(WhereCondition(ts[0].Value, ts[1].Type, ts[2].Value)), ts[3..])
  }

  /** A condition is read when the first three tokens fit their slots.
      Otherwise the tokens before the first misfit are consumed, the misfit
      is left on the stack, and the error says whether the input ended or
      which token was wrong. */
  lemma ConditionMeaning(ts: seq<Token>)
    ensures var r := ConditionOf(ts);
            r.result.Success? <==>
              |ts| >= 3 && ts[0].Type == TokenKeyword && ts[1].Type in ParserSql.ComparisonTypes && ts[2].Type in ValueTypes
    ensures var r := ConditionOf(ts);
            r.result.Success? ==> r.result.value == WhereCondition(ts[0].Value, ts[1].Type, ts[2].Value)
    ensures var r := ConditionOf(ts);
            r.result.Failure? ==>
              |r.rest| <= |ts| < |r.rest| + 3 &&
              var k := |ts| - |r.rest|;
              r.rest == ts[k..] &&
              (forall j | 0 <= j < k :: ts[j].Type in Slot(j)) &&
              if k == |ts| then r.result.error == ParserSql.Missing(k)
              else ts[k].Type !in Slot(k) && r.result.error == ParserSql.Invalid(k, ts[k].Value)
  {
    if |ts| >= 1 { assert ts[1..] == ts[1..]; }
  }

  /** parseWhereCondition (pkg/engine/sql/where.go:80-124). */
  method ParseWhereCondition(tokens: Tokens) returns (r: Outcome<WhereCondition>)
    requires tokens.Valid()
    modifies tokens
    ensures tokens.Valid()
    ensures Step(r, tokens.stack) == ConditionOf(old(tokens.stack))
  {
    ghost var ts := tokens.stack;
    HeadIfTypes(ts, [TokenKeyword]);
    var target := tokens.PopIfAny(TypeConds([TokenKeyword]));
    if target.None? {
      if !tokens.HasNext() {
        return Failure(NoTarget);
      }
      return Failure(InvalidTarget(tokens.Next().value.Value));
    }
    HeadIfTypes(ts[1..], ParserSql.ComparisonTypes);
    var operation := tokens.PopIfAny(TypeConds(ParserSql.ComparisonTypes));
    if operation.None? {
      if !tokens.HasNext() {
        return Failure(NoOperation);
      }
      return Failure(InvalidOperation(tokens.Next().value.Value));
    }
    HeadIfTypes(ts[2..], ValueTypes);
    var value := tokens.PopIfAny(TypeConds(ValueTypes));
    if value.None? {
      if !tokens.HasNext() {
        return Failure(NoValue);
      }
      return Failure(InvalidValue(tokens.Next().value.Value));
    }
    return Success(WhereCondition(target.value.Value, operation.value.Type, value.value.Value));
  }

  // ---------------------------------------------------------------------
  // WHERE chains (where.go:38-78, 126-134)
  // ---------------------------------------------------------------------

  /** whereOperation (pkg/engine/sql/where.go:126-134): no connector is
      WhereUndef, a token reading AND up to case is WhereAnd and any other
      token WhereOr. */
  function WhereOperationOf(t: Option<Token>): (op: WhereOperation)
    ensures op == WhereUndef <==> t.None?
    ensures t.Some? ==> (op == WhereAnd <==> EqualFold(t.value.Value, "AND"))
  {
    if t.None? then WhereUndef
    else if TokenIs(t.value, "AND", false) then WhereAnd
    else WhereOr
  }

  /** The WHERE loop from a chain `clause` and the connector `last` that
      followed it; the end of the loop is decided as in the first
      generation (ParserSql.Finish). */
  function ChainFrom(ts: seq<Token>, clause: Option<WhereClause>, last: Option<Token>): Step<Option<WhereClause>>
    decreases |ts|
  {
    if |ts| == 0 then Step(ParserSql.Finish(clause, last), ts)
    else
      var c := ConditionOf(ts);
      if c.result.Failure? then Step(Failure(Wrapped(InvalidWhereCondition, c.result.error)), c.rest)
      else
        var node := WhereClause(clause, c.result.value, WhereOperationOf(last));
        if |c.rest| == 0 || !IsConnector(c.rest[0]) then Step(ParserSql.Finish(Some(node), None), c.rest)
        else ChainFrom(c.rest[1..], Some(node), Some(c.rest[0]))
  }

  /** parseWhereClause: without a WHERE keyword nothing is consumed and
      there is no clause. */
  function WhereClauseOf(ts: seq<Token>): (r: Step<Option<WhereClause>>)
    ensures (|ts| == 0 || !IsKeyword(ts[0], "WHERE")) ==> r == Step(Success(None), ts)
  {
    if |ts| == 0 || !IsKeyword(ts[0], "WHERE") then Step(Success(None), ts)
    else ChainFrom(ts[1..], None, None)
  }

  /** parseWhereClause (pkg/engine/sql/where.go:38-78). */
  method ParseWhereClause(tokens: Tokens) returns (r: Outcome<Option<WhereClause>>)
    requires tokens.Valid()
    modifies tokens
    ensures tokens.Valid()
    ensures Step(r, tokens.stack) == WhereClauseOf(old(tokens.stack))
  {
    HeadIfWhere(tokens.stack);
    var where := tokens.PopIfAny(WhereConds);
    if where.None? {
      return Success(None);
    }
    var clause: Option<WhereClause> := None;
    var last: Option<Token> := None;
    while tokens.HasNext()
      invariant tokens.Valid()
      invariant ChainFrom(tokens.stack, clause, last) == WhereClauseOf(old(tokens.stack))
      decreases |tokens.stack|
    {
      var cond := ParseWhereCondition(tokens);
      if cond.Failure? {
        return Failure(Wrapped(InvalidWhereCondition, cond.error));
      }
      clause := Some(WhereClause(clause, cond.value, WhereOperationOf(last)));
      HeadIfConnector(tokens.stack);
      last := tokens.PopIfAny(ConnectorConds);
      if last.None? {
        break;
      }
    }
    if clause.None? {
      return Failure(NoConditionsAfterWhere);
    }
    if last.Some? {
      return Failure(NoConditionsAfter(last.value.Value));
    }
    return Success(clause);
  }

  /** The WHERE loop keeps its chain left-deep, and the chain and the
      connector are set together. */
  lemma {:induction false} ChainFromLeftDeep(ts: seq<Token>, clause: Option<WhereClause>, last: Option<Token>)
    requires clause.None? <==> last.None?
    requires clause.Some? ==> LeftDeep(clause.value)
    ensures var r := ChainFrom(ts, clause, last);
            r.result.Success? ==> r.result.value.Some? && LeftDeep(r.result.value.value)
    decreases |ts|
  {
    if |ts| > 0 {
      var c := ConditionOf(ts);
      if c.result.Success? && |c.rest| > 0 && IsConnector(c.rest[0]) {
        ChainFromLeftDeep(c.rest[1..], Some(WhereClause(clause, c.result.value, WhereOperationOf(last))), Some(c.rest[0]));
      }
    }
  }

  /** A parsed WHERE clause is a left-deep chain: its first condition has
      WhereUndef and every later one the connector before it. */
  lemma WhereClauseLeftDeep(ts: seq<Token>)
    ensures var r := WhereClauseOf(ts);
            r.result.Success? && r.result.value.Some? ==> LeftDeep(r.result.value.value)
  {
    if |ts| > 0 && IsKeyword(ts[0], "WHERE") {
      ChainFromLeftDeep(ts[1..], None, None);
    }
  }

  // The token form of a chain, for the round trip.

  function ConnectorToken(op: WhereOperation): Token
  {
    if op == WhereOr then Token(TokenKeyword, "OR") else Token(TokenKeyword, "AND")
  }

  /** A rendered connector is a connector and reads back as itself. */
  lemma ConnectorTokenMeaning(op: WhereOperation)
    requires op != WhereUndef
    ensures IsConnector(ConnectorToken(op)) && WhereOperationOf(Some(ConnectorToken(op))) == op
  {
    assert EqualFold("AND", "AND") && EqualFold("OR", "OR") && !EqualFold("OR", "AND");
  }

  /** The connectors and conditions after the `i`-th condition. */
  function ChainTail(conds: seq<WhereCondition>, ops: seq<WhereOperation>, vt: TokenType, i: nat): seq<Token>
    requires 1 <= i <= |conds| && |ops| == |conds| - 1
    decreases |conds| - i
  {
    if i == |conds| then []
    else [ConnectorToken(ops[i - 1])] + ParserSql.ConditionTokens(conds[i], vt) + ChainTail(conds, ops, vt, i + 1)
  }

  /** A WHERE keyword `w` followed by the conditions joined by their
      connectors. */
  function WhereTokens(w: Token, conds: seq<WhereCondition>, ops: seq<WhereOperation>, vt: TokenType): seq<Token>
    requires |conds| >= 1 && |ops| == |conds| - 1
  {
    [w] + ParserSql.ConditionTokens(conds[0], vt) + ChainTail(conds, ops, vt, 1)
  }

  /** Conditions and connectors the parser can read back. */
  predicate Renderable(conds: seq<WhereCondition>, ops: seq<WhereOperation>, vt: TokenType)
  {
    |conds| >= 1 && |ops| == |conds| - 1 && vt in ValueTypes &&
    (forall i | 0 <= i < |conds| :: conds[i].Operation in ParserSql.ComparisonTypes) &&
    (forall i | 0 <= i < |ops| :: ops[i] != WhereUndef)
  }

  /** How the loop goes on after reading a whole chain `c`. */
  function Resume(c: WhereClause, rest: seq<Token>): Step<Option<WhereClause>>
  {
    if |rest| == 0 || !IsConnector(rest[0]) then Step(Success(Some(c)), rest)
    else ChainFrom(rest[1..], Some(c), Some(rest[0]))
  }

  /** A condition's tokens are read back as that condition. */
  lemma ConditionOfTokens(c: WhereCondition, vt: TokenType, tail: seq<Token>)
    requires c.Operation in ParserSql.ComparisonTypes && vt in ValueTypes
    ensures ConditionOf(ParserSql.ConditionTokens(c, vt) + tail) == Step(Success(c), tail)
  {
    var ts := ParserSql.ConditionTokens(c, vt) + tail;
    assert ts[0] == Token(TokenKeyword, c.Target) && ts[1] == Token(c.Operation, "") && ts[2] == Token(vt, c.Value);
    assert ts[3..] == tail;
  }

  /** One turn of the WHERE loop over a condition's tokens. */
  lemma ChainStep(c: WhereCondition, vt: TokenType, tail: seq<Token>, clause: Option<WhereClause>, last: Option<Token>)
    requires c.Operation in ParserSql.ComparisonTypes && vt in ValueTypes
    ensures ChainFrom(ParserSql.ConditionTokens(c, vt) + tail, clause, last) ==
            Resume(WhereClause(clause, c, WhereOperationOf(last)), tail)
  {
    ConditionOfTokens(c, vt, tail);
  }

  /** The node the loop builds from the chain of the first `i` conditions
      is the chain of the first i + 1. */
  lemma NodeIsChain(conds: seq<WhereCondition>, ops: seq<WhereOperation>, i: nat)
    requires |conds| >= 1 && |ops| == |conds| - 1 && i < |conds|
    requires forall k | 0 <= k < |ops| :: ops[k] != WhereUndef
    ensures WhereClause(ParserSql.Prefix(conds, ops, i), conds[i], WhereOperationOf(Joiner(ops, i))) ==
            Chain(conds[..i + 1], ops[..i])
  {
    assert conds[..i + 1][..i] == conds[..i];
    if i > 0 {
      assert ops[..i][..i - 1] == ops[..i - 1];
      ConnectorTokenMeaning(ops[i - 1]);
    }
  }

  /** The connector before the `i`-th condition (none for i == 0). */
  function Joiner(ops: seq<WhereOperation>, i: nat): Option<Token>
    requires i <= |ops|
  {
    if i == 0 then None else Some(ConnectorToken(ops[i - 1]))
  }

  /** The loop over the tokens from the `i`-th condition on, as the
      chain of the first `i` conditions and the connector before it left
      it. */
  function ChainFromAt(conds: seq<WhereCondition>, ops: seq<WhereOperation>, vt: TokenType, rest: seq<Token>, i: nat)
    : Step<Option<WhereClause>>
    requires |conds| >= 1 && |ops| == |conds| - 1 && i < |conds|
  {
    ChainFrom(ParserSql.ConditionTokens(conds[i], vt) + (ChainTail(conds, ops, vt, i + 1) + rest),
              ParserSql.Prefix(conds, ops, i), Joiner(ops, i))
  }

  /** Reading the `i`-th condition extends the chain by one node. */
  lemma ChainAt(conds: seq<WhereCondition>, ops: seq<WhereOperation>, vt: TokenType, rest: seq<Token>, i: nat)
    requires Renderable(conds, ops, vt) && i < |conds|
    ensures ChainFromAt(conds, ops, vt, rest, i) ==
            Resume(Chain(conds[..i + 1], ops[..i]), ChainTail(conds, ops, vt, i + 1) + rest)
  {
    ChainStep(conds[i], vt, ChainTail(conds, ops, vt, i + 1) + rest, ParserSql.Prefix(conds, ops, i), Joiner(ops, i));
    NodeIsChain(conds, ops, i);
  }

  /** After the last condition the loop goes on with what follows. */
  lemma ChainAtLast(conds: seq<WhereCondition>, ops: seq<WhereOperation>, vt: TokenType, rest: seq<Token>, i: nat)
    requires Renderable(conds, ops, vt) && i + 1 == |conds|
    ensures ChainFromAt(conds, ops, vt, rest, i) == Resume(Chain(conds, ops), rest)
  {
    ChainAt(conds, ops, vt, rest, i);
    assert conds[..i + 1] == conds && ops[..i] == ops;
    assert ChainTail(conds, ops, vt, i + 1) + rest == rest;
  }

  /** The tokens after the `i`-th condition start with its connector. */
  lemma ChainTailAt(conds: seq<WhereCondition>, ops: seq<WhereOperation>, vt: TokenType, rest: seq<Token>, i: nat)
    requires |ops| == |conds| - 1 && 1 <= i < |conds|
    ensures ChainTail(conds, ops, vt, i) + rest ==
            [ConnectorToken(ops[i - 1])] + (ParserSql.ConditionTokens(conds[i], vt) + (ChainTail(conds, ops, vt, i + 1) + rest))
  {
  }

  /** After a chain that continues, the loop reads the connector and
      resumes at the next condition. */
  lemma ResumeAtConnector(node: WhereClause, op: WhereOperation, next: seq<Token>)
    requires op != WhereUndef
    ensures Resume(node, [ConnectorToken(op)] + next) == ChainFrom(next, Some(node), Some(ConnectorToken(op)))
  {
    ConnectorTokenMeaning(op);
    assert ([ConnectorToken(op)] + next)[1..] == next;
  }

  /** Before the last condition the loop reads the connector and goes on
      at the next condition. */
  lemma ChainAtInner(conds: seq<WhereCondition>, ops: seq<WhereOperation>, vt: TokenType, rest: seq<Token>, i: nat)
    requires Renderable(conds, ops, vt) && i + 1 < |conds|
    ensures ChainFromAt(conds, ops, vt, rest, i) == ChainFromAt(conds, ops, vt, rest, i + 1)
  {
    ChainAt(conds, ops, vt, rest, i);
    var node := Chain(conds[..i + 1], ops[..i]);
    var next := ParserSql.ConditionTokens(conds[i + 1], vt) + (ChainTail(conds, ops, vt, i + 2) + rest);
    ChainTailAt(conds, ops, vt, rest, i + 1);
    ResumeAtConnector(node, ops[i], next);
    assert ParserSql.Prefix(conds, ops, i + 1) == Some(node);
  }

  lemma {:induction false} ChainFromTokens(conds: seq<WhereCondition>, ops: seq<WhereOperation>, vt: TokenType,
                                           rest: seq<Token>, i: nat)
    requires Renderable(conds, ops, vt) && i < |conds|
    ensures ChainFromAt(conds, ops, vt, rest, i) == Resume(Chain(conds, ops), rest)
    decreases |conds| - i
  {
    if i + 1 == |conds| {
      ChainAtLast(conds, ops, vt, rest, i);
    } else {
      ChainFromTokens(conds, ops, vt, rest, i + 1);
      ChainBackStep(conds, ops, vt, rest, i);
    }
  }

  /** One condition earlier the loop reaches the same outcome. */
  lemma ChainBackStep(conds: seq<WhereCondition>, ops: seq<WhereOperation>, vt: TokenType, rest: seq<Token>, i: nat)
    requires Renderable(conds, ops, vt) && i + 1 < |conds|
    requires ChainFromAt(conds, ops, vt, rest, i + 1) == Resume(Chain(conds, ops), rest)
    ensures ChainFromAt(conds, ops, vt, rest, i) == Resume(Chain(conds, ops), rest)
  {
    ChainAtInner(conds, ops, vt, rest, i);
  }

  /** A rendered chain after any spelling of WHERE parses back to the
      chain; the loop then goes on as the tokens after it decide. */
  lemma WhereOfTokens(w: Token, conds: seq<WhereCondition>, ops: seq<WhereOperation>, vt: TokenType, rest: seq<Token>)
    requires IsKeyword(w, "WHERE") && Renderable(conds, ops, vt)
    ensures WhereClauseOf(WhereTokens(w, conds, ops, vt) + rest) == Resume(Chain(conds, ops), rest)
  {
    var ts := WhereTokens(w, conds, ops, vt) + rest;
    assert ts[1..] == ParserSql.ConditionTokens(conds[0], vt) + (ChainTail(conds, ops, vt, 1) + rest);
    ChainFromTokens(conds, ops, vt, rest, 0);
  }

  /** Round trip: WHERE in any case and a chain's tokens, followed by
      anything but a connector, parse to that chain and leave the rest. */
  lemma WhereRoundTrip(w: Token, conds: seq<WhereCondition>, ops: seq<WhereOperation>, vt: TokenType, rest: seq<Token>)
    requires IsKeyword(w, "WHERE") && Renderable(conds, ops, vt)
    requires |rest| == 0 || !IsConnector(rest[0])
    ensures WhereClauseOf(WhereTokens(w, conds, ops, vt) + rest) == Step(Success(Some(Chain(conds, ops))), rest)
  {
    WhereOfTokens(w, conds, ops, vt, rest);
  }

  /** WHERE alone, and a chain ending in a connector, are errors; the
      latter names the connector. A condition that does not parse is
      reported as an invalid WHERE condition. */
  lemma WhereErrors(w: Token, conds: seq<WhereCondition>, ops: seq<WhereOperation>, vt: TokenType, op: WhereOperation, bad: Token)
    requires IsKeyword(w, "WHERE") && Renderable(conds, ops, vt) && op != WhereUndef
    requires bad.Type != TokenKeyword
    ensures WhereClauseOf([w]) == Step(Failure(NoConditionsAfterWhere), [])
    ensures WhereClauseOf(WhereTokens(w, conds, ops, vt) + [ConnectorToken(op)]) ==
              Step(Failure(NoConditionsAfter(ConnectorToken(op).Value)), [])
    ensures WhereClauseOf([w, bad]) == Step(Failure(Wrapped(InvalidWhereCondition, InvalidTarget(bad.Value))), [bad])
  {
    assert [w][1..] == [];
    assert [w, bad][1..] == [bad];
    WhereOfTokens(w, conds, ops, vt, [ConnectorToken(op)]);
    ConnectorTokenMeaning(op);
    assert [ConnectorToken(op)][1..] == [];
  }

  // ---------------------------------------------------------------------
  // Column lists and table names (utils.go)
  // ---------------------------------------------------------------------

  /** The column loop with the columns read so far and whether another
      name is due: it runs while a name is due and tokens remain, reads a
      name and then, optionally, a comma. */
  function ColumnsFrom(ts: seq<Token>, cols: seq<Column>, expectsNext: bool): Step<seq<Column>>
    decreases |ts|
  {
    if !expectsNext || |ts| == 0 then Step(if |cols| == 0 then Failure(NoColumns) else Success(cols), ts)
    else if HeadIf(ts, ParserSql.NameTypes).None? then Step(Failure(InvalidColumnName(ts[0].Value)), ts)
    else
      var more := cols + [Column(ts[0].Value)];
      if HeadIf(ts[1..], [TokenComma]).Some? then ColumnsFrom(ts[2..], more, true)
      else ColumnsFrom(ts[1..], more, false)
  }

  function ColumnsOf(ts: seq<Token>): Step<seq<Column>>
  {
    ColumnsFrom(ts, [], true)
  }

  /** parseColumns (pkg/engine/sql/utils.go:10-40). */
  method ParseColumns(tokens: Tokens) returns (r: Outcome<seq<Column>>)
    requires tokens.Valid()
    modifies tokens
    ensures tokens.Valid()
    ensures Step(r, tokens.stack) == ColumnsOf(old(tokens.stack))
  {
    var cols: seq<Column> := [];
    var expectsNext := true;
    while expectsNext && tokens.HasNext()
      invariant tokens.Valid()
      invariant ColumnsFrom(tokens.stack, cols, expectsNext) == ColumnsOf(old(tokens.stack))
      decreases |tokens.stack|
    {
      expectsNext := false;
      ghost var ts := tokens.stack;
      HeadIfTypes(ts, ParserSql.NameTypes);
      var token := tokens.PopIfAny(TypeConds(ParserSql.NameTypes));
      if token.None? {
        return Failure(InvalidColumnName(tokens.Next().value.Value));
      }
      cols := cols + [Column(token.value.Value)];
      HeadIfTypes(ts[1..], [TokenComma]);
      var comma := tokens.PopIfAny(TypeConds([TokenComma]));
      if comma.Some? {
        expectsNext := true;
      }
    }
    if |cols| == 0 {
      return Failure(NoColumns);
    }
    return Success(cols);
  }

  /** Reading the names from the `j`-th on, each but the last followed by
      a comma; a comma right after the last name is read as well. */
  lemma {:induction false} ColumnsFromList(names: seq<Token>, j: nat, rest: seq<Token>)
    requires ParserSql.NameTokens(names) && j < |names|
    ensures ColumnsFrom([names[j]] + (ParserSql.ListTail(names, j + 1) + rest), ParserSql.ColumnsNamed(names[..j]), true) ==
            if |rest| > 0 && rest[0].Type == TokenComma
            then ColumnsFrom(rest[1..], ParserSql.ColumnsNamed(names), true)
            else Step(Success(ParserSql.ColumnsNamed(names)), rest)
    decreases |names| - j
  {
    assert names[j].Type in ParserSql.NameTypes;
    var tail := ParserSql.ListTail(names, j + 1) + rest;
    var ts := [names[j]] + tail;
    assert ts[1..] == tail;
    var more := ParserSql.ColumnsNamed(names[..j]) + [Column(names[j].Value)];
    assert more == ParserSql.ColumnsNamed(names[..j + 1]);
    if j + 1 == |names| {
      assert names[..j + 1] == names;
      assert tail == rest;
    } else {
      var next := [names[j + 1]] + (ParserSql.ListTail(names, j + 2) + rest);
      assert tail == [ParserSql.CommaToken] + next;
      assert ts[2..] == next;
      assert ColumnsFrom(ts, ParserSql.ColumnsNamed(names[..j]), true) == ColumnsFrom(next, more, true);
      ColumnsFromList(names, j + 1, rest);
    }
  }

  /** Round trip: a comma-separated list of names followed by anything but
      a comma parses to those columns, in order, and leaves what follows,
      even another name. */
  lemma ColumnsRoundTrip(names: seq<Token>, rest: seq<Token>)
    requires ParserSql.NameTokens(names) && |names| >= 1
    requires |rest| == 0 || rest[0].Type != TokenComma
    ensures ColumnsOf(ParserSql.ListTokens(names) + rest) == Step(Success(ParserSql.ColumnsNamed(names)), rest)
  {
    assert ParserSql.ListTokens(names) + rest == [names[0]] + (ParserSql.ListTail(names, 1) + rest);
    assert ParserSql.ColumnsNamed(names[..0]) == [];
    ColumnsFromList(names, 0, rest);
  }

  /** A list of names followed by a comma and then `rest`: the comma is
      read and the loop goes on at `rest`. */
  lemma ColumnsThenComma(names: seq<Token>, rest: seq<Token>)
    requires ParserSql.NameTokens(names) && |names| >= 1
    ensures ColumnsOf(ParserSql.ListTokens(names) + ([ParserSql.CommaToken] + rest)) ==
            ColumnsFrom(rest, ParserSql.ColumnsNamed(names), true)
  {
    var tail := [ParserSql.CommaToken] + rest;
    assert ParserSql.ListTokens(names) + tail == [names[0]] + (ParserSql.ListTail(names, 1) + tail);
    assert ParserSql.ColumnsNamed(names[..0]) == [];
    ColumnsFromList(names, 0, tail);
    assert tail[1..] == rest;
  }

  /** Unlike the first generation, a trailing comma is accepted and
      consumed; a comma followed by a token that is not a name is an
      error naming that token. */
  lemma ColumnsTrailingComma(names: seq<Token>, other: Token)
    requires ParserSql.NameTokens(names) && |names| >= 1 && other.Type !in ParserSql.NameTypes
    ensures ColumnsOf(ParserSql.ListTokens(names) + [ParserSql.CommaToken]) == Step(Success(ParserSql.ColumnsNamed(names)), [])
    ensures ParserSql.ColumnsOf(ParserSql.ListTokens(names) + [ParserSql.CommaToken]).result.Failure?
    ensures ColumnsOf(ParserSql.ListTokens(names) + [ParserSql.CommaToken, other]) ==
            Step(Failure(InvalidColumnName(other.Value)), [other])
  {
    ColumnsThenComma(names, []);
    assert [ParserSql.CommaToken] + [] == [ParserSql.CommaToken];
    ParserSql.ColumnsErrors(names, names[0]);
    ColumnsThenComma(names, [other]);
    assert [ParserSql.CommaToken] + [other] == [ParserSql.CommaToken, other];
  }

  /** A leading comma is an error naming it, and no tokens at all means
      no columns. */
  lemma ColumnsErrors(names: seq<Token>)
    requires ParserSql.NameTokens(names) && |names| >= 1
    ensures ColumnsOf([ParserSql.CommaToken] + ParserSql.ListTokens(names)).result == Failure(InvalidColumnName(","))
    ensures ColumnsOf([]) == Step(Failure(NoColumns), [])
  {
  }

  /** parseTable (pkg/engine/sql/utils.go:42-51): the same slot as the
      first generation's, so it meets ParserSql.TableOf. */
  method ParseTable(tokens: Tokens) returns (r: Outcome<Table>)
    requires tokens.Valid()
    modifies tokens
    ensures tokens.Valid()
    ensures Step(r, tokens.stack) == ParserSql.TableOf(old(tokens.stack))
  {
    HeadIfTypes(tokens.stack, ParserSql.TableTypes);
    var token := tokens.PopIfAny(TypeConds(ParserSql.TableTypes));
    if token.None? {
      if !tokens.HasNext() {
        return Failure(TableNameExpected);
      }
      return Failure(InvalidTableName(tokens.Next().value.Value));
    }
    return Success(Table(token.value.Value));
  }
}
