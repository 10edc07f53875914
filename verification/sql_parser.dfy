/** The SQL parser front (pkg/engine/parser/parser.go): a list of statement
    parsers tried in order over the tokens of a query. The tokenizer is
    external; Parse receives the token sequence it would produce. */
module SqlParser {
  import opened Errors
  import opened Tokenizer
  import opened SqlAst
  import opened ParserSql

  /** The statement parsers the repository provides: SELECT only. */
  datatype StatementParser = SelectParser

  /** The external tokenizer; only whether one was given matters here. */
  datatype SqlTokenizer = SqlTokenizer

  datatype Statement = Select(SelectStatement)

  /** sqlParser (pkg/engine/parser/parser.go:25-28). */
  datatype Parser = Parser(stmtParsers: seq<StatementParser>, tokenizer: SqlTokenizer)

  /** NewSqlParser (pkg/engine/parser/parser.go:9-19): a missing tokenizer
      is refused first, then a list holding a missing statement parser;
      otherwise the parsers are kept in their order. */
  method NewSqlParser(tokenizer: Option<SqlTokenizer>, stmtParsers: seq<Option<StatementParser>>) returns (r: Outcome<Parser>)
    ensures tokenizer.None? ==> r == Failure(UndefinedTokenizer)
    ensures tokenizer.Some? ==>
              (r.Failure? <==> exists i | 0 <= i < |stmtParsers| :: stmtParsers[i].None?)
    ensures tokenizer.Some? && r.Failure? ==> r.error == UndefinedStatementParser
    ensures r.Success? ==>
              r.value.tokenizer == tokenizer.value && |r.value.stmtParsers| == |stmtParsers| &&
              forall i | 0 <= i < |stmtParsers| :: stmtParsers[i] == Some(r.value.stmtParsers[i])
  {
    if tokenizer.None? {
      return Failure(UndefinedTokenizer);
    }
    var parsers: seq<StatementParser> := [];
    for i := 0 to |stmtParsers|
      invariant |parsers| == i
      invariant forall j | 0 <= j < i :: stmtParsers[j] == Some(parsers[j])
    {
      if stmtParsers[i].None? {
        return Failure(UndefinedStatementParser);
      }
      parsers := parsers + [stmtParsers[i].value];
    }
    return Success(Parser(parsers, tokenizer.value));
  }

  /** StatementParser.Is: whether the parser takes the query, and the
      tokens it leaves; a parser that declines consumes nothing. */
  function IsOf(sp: StatementParser, ts: seq<Token>): (r: (bool, seq<Token>))
    ensures !r.0 ==> r.1 == ts
    ensures r.0 ==> |ts| > 0 && r.1 == ts[1..]
  {
    match sp
    case SelectParser =>
      if |ts| > 0 && ts[0].Type == TokenSelect then (true, ts[1..]) else (false, ts)
  }

  /** StatementParser.Parse over the tokens left by Is. */
  function StatementOf(sp: StatementParser, ts: seq<Token>): Outcome<Statement>
  {
    match sp
    case SelectParser =>
      var s := SelectOf(ts).result;
      if s.Failure? then Failure(s.error) else Success(Select(s.value))
  }

  /** The dispatch loop from the `i`-th parser on. */
  function DispatchFrom(ps: seq<StatementParser>, ts: seq<Token>, i: nat): Outcome<Statement>
    decreases |ps| - i
  {
    if i >= |ps| then Failure(UnknownQueryType)
    else
      var taken := IsOf(ps[i], ts);
      if taken.0 then
        var s := StatementOf(ps[i], taken.1);
        if s.Failure? then Failure(Wrapped(InvalidQuery, s.error)) else s
      else DispatchFrom(ps, taken.1, i + 1)
  }

  /** Is for one parser on the shared stack. */
  method Is(sp: StatementParser, tokens: Tokens) returns (b: bool)
    requires tokens.Valid()
    modifies tokens
    ensures tokens.Valid()
    ensures (b, tokens.stack) == IsOf(sp, old(tokens.stack))
  {
    match sp
    case SelectParser =>
      b := IsSelect(tokens);
  }

  /** Parse for one parser on the shared stack. */
  method ParseWith(sp: StatementParser, tokens: Tokens) returns (r: Outcome<Statement>)
    requires tokens.Valid()
    modifies tokens
    ensures tokens.Valid()
    ensures r == StatementOf(sp, old(tokens.stack))
  {
    match sp
    case SelectParser =>
      var s := ParseSelect(tokens);
      if s.Failure? {
        return Failure(s.error);
      }
      return Success(Select(s.value));
  }

  /** sqlParser.Parse (pkg/engine/parser/parser.go:30-42). */
  method Parse(p: Parser, ts: seq<Token>) returns (r: Outcome<Statement>)
    ensures r == DispatchFrom(p.stmtParsers, ts, 0)
  {
    var tokens := new Tokens(ts);
    for i := 0 to |p.stmtParsers|
      invariant tokens.Valid()
      invariant DispatchFrom(p.stmtParsers, tokens.stack, i) == DispatchFrom(p.stmtParsers, ts, 0)
    {
      var taken := Is(p.stmtParsers[i], tokens);
      if taken {
        var stmt := ParseWith(p.stmtParsers[i], tokens);
        if stmt.Failure? {
          return Failure(Wrapped(InvalidQuery, stmt.error));
        }
        return stmt;
      }
    }
    return Failure(UnknownQueryType);
  }

  /** The first parser that takes the query parses it, on the tokens
      after its keyword, and its error is reported as an invalid query;
      when no parser takes it the query type is unknown. */
  lemma {:induction false} DispatchFirst(ps: seq<StatementParser>, ts: seq<Token>, i: nat, j: nat)
    requires i <= j <= |ps|
    requires forall k | i <= k < j :: !IsOf(ps[k], ts).0
    requires j < |ps| ==> IsOf(ps[j], ts).0
    ensures j == |ps| ==> DispatchFrom(ps, ts, i) == Failure(UnknownQueryType)
    ensures j < |ps| ==>
              var s := StatementOf(ps[j], IsOf(ps[j], ts).1);
              DispatchFrom(ps, ts, i) == if s.Failure? then Failure(Wrapped(InvalidQuery, s.error)) else s
    decreases j - i
  {
    if i < j {
      DispatchFirst(ps, ts, i + 1, j);
    }
  }

  /** Round trip of a whole query: SELECT, columns, FROM, a table and a
      WHERE chain parse to the SELECT statement holding them. */
  lemma QueryRoundTrip(p: Parser, names: seq<Token>, table: Token,
                       conds: seq<WhereCondition>, ops: seq<WhereOperation>, vt: TokenType)
    requires |p.stmtParsers| > 0
    requires NameTokens(names) && |names| >= 1 && table.Type in TableTypes && Renderable(conds, ops, vt)
    ensures var body := ListTokens(names) + [FromToken, table] + WhereTokens(conds, ops, vt);
            DispatchFrom(p.stmtParsers, [SelectToken] + body, 0) ==
            Success(Select(SelectStatement(ColumnsNamed(names), Some(Table(table.Value)), Some(Chain(conds, ops)))))
  {
    var body := ListTokens(names) + [FromToken, table] + WhereTokens(conds, ops, vt);
    assert ([SelectToken] + body)[1..] == body;
    SelectRoundTrip(names, table, conds, ops, vt);
  }
}
