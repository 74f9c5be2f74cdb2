/** What the parser of c3.cpp computes, as functions on the list of tokens not yet consumed. */
module KalGrammar {
  import opened KalLexer

  datatype Expr =
    | Num(text: string)
    | Variable(name: string)
    | Binary(op: char, lhs: Expr, rhs: Expr)
    | Call(callee: string, args: seq<Expr>)

  datatype Prototype = Prototype(name: string, params: seq<string>)

  /** What a parse function returns, and the tokens it leaves: a null pointer is Failed. */
  datatype Parse<+T> = Parsed(value: T, rest: seq<Token>) | Failed(rest: seq<Token>)

  /** BinopPrecedence as main fills it. */
  function Precedence(op: char): int {
    match op
    case '<' => 10
    case '+' => 20
    case '-' => 20
    case '*' => 40
    case _ => -1
  }

  /** GetTokPrecedence on the current token. */
  function TokPrecedence(ts: seq<Token>): int {
    if ts != [] && ts[0].Char? then Precedence(ts[0].c) else -1
  }

  predicate At(ts: seq<Token>, c: char) { ts != [] && ts[0] == Char(c) }

  /** getNextToken: the end of the input is never passed. */
  function Next(ts: seq<Token>): seq<Token> { if ts == [] then [] else ts[1..] }

  // ----- expressions -----

  function ParseExpression(ts: seq<Token>): (r: Parse<Expr>)
    ensures |r.rest| <= |ts| && (r.Parsed? ==> |r.rest| < |ts|)
    decreases |ts|, 3
  {
    ParseFrom(0, ts)
  }

  /** A primary and the operators of at least this precedence that follow it. */
  function ParseFrom(prec: nat, ts: seq<Token>): (r: Parse<Expr>)
    ensures |r.rest| <= |ts| && (r.Parsed? ==> |r.rest| < |ts|)
    decreases |ts|, 2
  {
    match ParsePrimary(ts)
    case Failed(rest) => Failed(rest)
    case Parsed(lhs, rest) => ParseBinOpRHS(prec, lhs, rest)
  }

  function ParsePrimary(ts: seq<Token>): (r: Parse<Expr>)
    ensures |r.rest| <= |ts| && (r.Parsed? ==> |r.rest| < |ts|)
    decreases |ts|, 1
  {
    if ts == [] then Failed(ts)
    else
      match ts[0]
      case Identifier(name) => ParseIdentifierExpr(name, ts[1..])
      case Number(text) => Parsed(Num(text), ts[1..])
      case Char(c) => if c == '(' then ParseParenExpr(ts[1..]) else Failed(ts)
      case _ => Failed(ts)
  }

  /** After the opening parenthesis. */
  function ParseParenExpr(ts: seq<Token>): (r: Parse<Expr>)
    ensures |r.rest| <= |ts|
    decreases |ts|, 4
  {
    match ParseExpression(ts)
    case Failed(rest) => Failed(rest)
    case Parsed(e, rest) => if At(rest, ')') then Parsed(e, rest[1..]) else Failed(rest)
  }

  /** After the identifier. */
  function ParseIdentifierExpr(name: string, ts: seq<Token>): (r: Parse<Expr>)
    ensures |r.rest| <= |ts|
    decreases |ts|, 5
  {
    if !At(ts, '(') then Parsed(Variable(name), ts)
    else if At(ts[1..], ')') then Parsed(Call(name, []), ts[2..])
    else
      match ParseArgs([], ts[1..])
      case Failed(rest) => Failed(rest)
      case Parsed(args, rest) => Parsed(Call(name, args), Next(rest))
  }

  /** The argument loop; it ends with the closing parenthesis as current token. */
  function ParseArgs(args: seq<Expr>, ts: seq<Token>): (r: Parse<seq<Expr>>)
    ensures |r.rest| <= |ts| && (r.Parsed? ==> At(r.rest, ')') && |r.rest| < |ts|)
    decreases |ts|, 4
  {
    match ParseExpression(ts)
    case Failed(rest) => Failed(rest)
    case Parsed(e, rest) =>
      if At(rest, ')') then Parsed(args + [e], rest)
      else if !At(rest, ',') then Failed(rest)
      else ParseArgs(args + [e], rest[1..])
  }

  function ParseBinOpRHS(prec: nat, lhs: Expr, ts: seq<Token>): (r: Parse<Expr>)
    ensures |r.rest| <= |ts|
    decreases |ts|, 0
  {
    var tokPrec := TokPrecedence(ts);
    if tokPrec < prec then Parsed(lhs, ts)
    else
      match ParsePrimary(ts[1..])
      case Failed(rest) => Failed(rest)
      case Parsed(rhs, rest) =>
        if tokPrec < TokPrecedence(rest) then
          match ParseBinOpRHS(tokPrec + 1, rhs, rest)
          case Failed(rest') => Failed(rest')
          case Parsed(rhs', rest') => ParseBinOpRHS(prec, Binary(ts[0].c, lhs, rhs'), rest')
        else ParseBinOpRHS(prec, Binary(ts[0].c, lhs, rhs), rest)
  }

  // ----- declarations -----

  /** The parameter names, up to the first token that is not an identifier. */
  function ParseParams(ts: seq<Token>): (r: (seq<string>, seq<Token>))
    ensures |r.1| <= |ts|
  {
    if ts != [] && ts[0].Identifier? then
      var (names, rest) := ParseParams(ts[1..]);
      ([ts[0].name] + names, rest)
    else ([], ts)
  }

  function ParsePrototype(ts: seq<Token>): (r: Parse<Prototype>)
    ensures |r.rest| <= |ts| && (r.Parsed? ==> |r.rest| < |ts|)
  {
    if ts == [] || !ts[0].Identifier? then Failed(ts)
    else if !At(ts[1..], '(') then Failed(ts[1..])
    else
      var (names, rest) := ParseParams(ts[2..]);
      if At(rest, ')') then Parsed(Prototype(ts[0].name, names), rest[1..]) else Failed(rest)
  }

  /** What the top level reads: a definition, an external, or an expression. */
  datatype Item = Definition(proto: Prototype, body: Expr) | External(proto: Prototype) | TopLevel(body: Expr)

  /** After 'def'. */
  function ParseDefinition(ts: seq<Token>): (r: Parse<Item>)
    ensures |r.rest| <= |ts|
  {
    match ParsePrototype(ts)
    case Failed(rest) => Failed(rest)
    case Parsed(proto, rest) =>
      match ParseExpression(rest)
      case Failed(rest') => Failed(rest')
      case Parsed(body, rest') => Parsed(Definition(proto, body), rest')
  }

  /** One iteration of MainLoop before the end of the input: what it read, if it read anything, and what is left. */
  function TopStep(ts: seq<Token>): (r: Parse<Item>)
    requires ts != []
    ensures |r.rest| < |ts|
  {
    match ts[0]
    case Def =>
      var r := ParseDefinition(ts[1..]);
      if r.Parsed? then r else Failed(Next(r.rest))
    case Extern =>
      (match ParsePrototype(ts[1..])
       case Parsed(proto, rest) => Parsed(External(proto), rest)
       case Failed(rest) => Failed(Next(rest)))
    case _ =>
      if ts[0] == Char(';') then Failed(ts[1..])
      else
        (match ParseExpression(ts)
         case Parsed(body, rest) => Parsed(TopLevel(body), rest)
         case Failed(rest) => Failed(Next(rest)))
  }

  /** Everything MainLoop reads. */
  function Program(ts: seq<Token>): seq<Item>
    decreases |ts|
  {
    if ts == [] then []
    else
      match TopStep(ts)
      case Failed(rest) => Program(rest)
      case Parsed(item, rest) => [item] + Program(rest)
  }
}
