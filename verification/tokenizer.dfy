/** The SQL token stack (pkg/engine/parser/tokenizer): tokens as the
    external tokenizer produces them, the stack the parsers consume, and the
    token predicates of conditions.go. */
module Tokenizer {
  import opened Errors

  /** The token types of pkg/engine/parser/tokenizer/tokenizer.go:9-46,
      followed by the keyword types the first parser generation pops
      (WHERE, AND, OR, SELECT, FROM), which that file does not declare. */
  datatype TokenType =
    | TokenUnknown | TokenKeyword | TokenInt | TokenFloat
    | TokenDoubleQuotedString | TokenStringFragment
    | TokenAsterisk | TokenPlus | TokenDash | TokenSlash | TokenPercentage
    | TokenComma | TokenExprOpen | TokenExprClose | TokenStmtEnd | TokenComment
    | TokenEq | TokenNotEq | TokenGt | TokenLt | TokenGte | TokenLte
    | TokenSingleQuotedString | TokenLiteralString
    | TokenWhere | TokenAnd | TokenOr | TokenSelect | TokenFrom

  datatype Token = Token(Type: TokenType, Value: string)

  /** The first token when it is one of `types` (slices.Contains). */
  function HeadIf(ts: seq<Token>, types: seq<TokenType>): (t: Option<Token>)
    ensures t.Some? <==> |ts| > 0 && ts[0].Type in types
    ensures t.Some? ==> t.value == ts[0]
  {
    if |ts| > 0 && ts[0].Type in types then Some(ts[0]) else None
  }

  /** The stack left after popping `t`: one token shorter when a token
      was popped. */
  function After(ts: seq<Token>, t: Option<Token>): seq<Token>
  {
    if t.Some? && |ts| > 0 then ts[1..] else ts
  }

  /** A token predicate (Cond). */
  type Cond = Token -> bool

  /** IsType (pkg/engine/parser/tokenizer/conditions.go:5-9). */
  function IsType(typ: TokenType): (c: Cond)
    ensures forall tok :: c(tok) <==> tok.Type == typ
  {
    (tok: Token) => tok.Type == typ
  }

  /** ASCII upper case. */
  function Upper(c: char): char
  {
    if 'a' <= c <= 'z' then (c as int - 32) as char else c
  }

  /** Case-insensitive equality, folding ASCII letters only. */
  predicate EqualFold(a: string, b: string)
  {
    |a| == |b| && forall i | 0 <= i < |a| :: Upper(a[i]) == Upper(b[i])
  }

  /** Token.Is: the token's text equals `val`, exactly or up to case. */
  predicate TokenIs(tok: Token, val: string, caseSensitive: bool)
  {
    if caseSensitive then tok.Value == val else EqualFold(tok.Value, val)
  }

  /** Is (pkg/engine/parser/tokenizer/conditions.go:11-15). */
  function Is(val: string, caseSensitive: bool): (c: Cond)
    ensures forall tok :: c(tok) <==> TokenIs(tok, val, caseSensitive)
  {
    (tok: Token) => TokenIs(tok, val, caseSensitive)
  }

  /** Every condition holds, checked left to right up to the first that
      does not. */
  function AllHold(conds: seq<Cond>, tok: Token): (b: bool)
    ensures b <==> forall i | 0 <= i < |conds| :: conds[i](tok)
  {
    if |conds| == 0 then true
    else if !conds[0](tok) then false
    else AllHold(conds[1..], tok)
  }

  /** CondGroup (pkg/engine/parser/tokenizer/conditions.go:17-26): the
      conjunction of its conditions; with none it accepts every token. */
  function CondGroup(conds: seq<Cond>): (c: Cond)
    ensures forall tok :: c(tok) <==> forall i | 0 <= i < |conds| :: conds[i](tok)
    ensures |conds| == 0 ==> forall tok :: c(tok)
  {
    (tok: Token) => AllHold(conds, tok)
  }

  /** Some condition holds. */
  function AnyHolds(conds: seq<Cond>, tok: Token): (b: bool)
    ensures b <==> exists i | 0 <= i < |conds| :: conds[i](tok)
  {
    if |conds| == 0 then false
    else if conds[0](tok) then true
    else AnyHolds(conds[1..], tok)
  }

  /** The first token when some condition accepts it. */
  function HeadIfAny(ts: seq<Token>, conds: seq<Cond>): (t: Option<Token>)
    ensures t.Some? <==> |ts| > 0 && exists i | 0 <= i < |conds| :: conds[i](ts[0])
    ensures t.Some? ==> t.value == ts[0]
  {
    if |ts| > 0 && AnyHolds(conds, ts[0]) then Some(ts[0]) else None
  }

  /** The tokens struct (pkg/engine/parser/tokenizer/token.go:33-36): the
      remaining tokens, first one on top, and their count. */
  class Tokens {
    var stack: seq<Token>
    var len: int

    /** The count always matches the stack. */
    ghost predicate Valid()
      reads this
    {
      len == |stack|
    }

    /** newTokens (pkg/engine/parser/tokenizer/token.go:26-31). */
    constructor(elems: seq<Token>)
      ensures stack == elems && Valid()
    {
      stack := elems;
      len := |elems|;
    }

    /** HasNext (pkg/engine/parser/tokenizer/token.go:38-40). */
    function HasNext(): (b: bool)
      reads this
      requires Valid()
      ensures b <==> |stack| > 0
    {
      len > 0
    }

    /** Next (pkg/engine/parser/tokenizer/token.go:65-70): the top token,
      nil on an empty stack; it reads and never changes the stack. */
    function Next(): (t: Option<Token>)
      reads this
      requires Valid()
      ensures t.Some? <==> |stack| > 0
      ensures t.Some? ==> t.value == stack[0]
    {
      if !HasNext() then None else Some(stack[0])
    }

    /** NextIf (pkg/engine/parser/tokenizer/token.go:72-80). */
    function NextIf(types: seq<TokenType>): (t: Option<Token>)
      reads this
      requires Valid()
      ensures t == HeadIf(stack, types)
      ensures t.Some? <==> Next().Some? && Next().value.Type in types
    {
      if !HasNext() then None
      else if stack[0].Type in types then Some(stack[0])
      else None
    }

    /** Pop (pkg/engine/parser/tokenizer/token.go:42-50): the token Next
      would return, removed from the stack. */
    method Pop() returns (t: Option<Token>)
      requires Valid()
      modifies this
      ensures Valid()
      ensures t == old(Next())
      ensures stack == After(old(stack), t)
    {
      if !HasNext() {
        return None;
      }
      t := Some(stack[0]);
      stack := stack[1..];
      len := len - 1;
    }

    /** PopIf (pkg/engine/parser/tokenizer/token.go:52-63): the token
      NextIf would return, removed from the stack; nothing changes when
      the top token is not of one of the types. */
    method PopIf(types: seq<TokenType>) returns (t: Option<Token>)
      requires Valid()
      modifies this
      ensures Valid()
      ensures t == old(NextIf(types))
      ensures stack == After(old(stack), t)
    {
      if !HasNext() {
        return None;
      }
      var elem := stack[0];
      if elem.Type !in types {
        return None;
      }
      stack := stack[1..];
      len := len - 1;
      return Some(elem);
    }

    /** PopIf as pkg/engine/sql calls it, with conditions in place of
      types: the top token is popped when some condition accepts it. */
    method PopIfAny(conds: seq<Cond>) returns (t: Option<Token>)
      requires Valid()
      modifies this
      ensures Valid()
      ensures t == HeadIfAny(old(stack), conds)
      ensures stack == After(old(stack), t)
    {
      if !HasNext() {
        return None;
      }
      var elem := stack[0];
      if !AnyHolds(conds, elem) {
        return None;
      }
      stack := stack[1..];
      len := len - 1;
      return Some(elem);
    }

    /** AreNextInOrder (pkg/engine/parser/tokenizer/token.go:82-93): the
      top tokens have exactly the given types, in order; always true for
      no types and false when fewer tokens remain. */
    method AreNextInOrder(types: seq<TokenType>) returns (b: bool)
      requires Valid()
      ensures b <==> |types| <= |stack| && forall i | 0 <= i < |types| :: stack[i].Type == types[i]
    {
      if |types| > len {
        return false;
      }
      for i := 0 to |types|
        invariant forall j | 0 <= j < i :: stack[j].Type == types[j]
      {
        if stack[i].Type != types[i] {
          return false;
        }
      }
      return true;
    }
  }
}
