/** Printing a tree with the fewest parentheses and parsing it gives the tree back. */
module KalRoundTrip {
  import opened KalLexer
  import opened KalGrammar

  /** Trees over the four operators of the precedence table. */
  predicate WellFormed(e: Expr) {
    match e
    case Num(_) => true
    case Variable(_) => true
    case Binary(op, l, r) => Precedence(op) > 0 && WellFormed(l) && WellFormed(r)
    case Call(_, args) => forall i | 0 <= i < |args| :: WellFormed(args[i])
  }

  /** The tokens of e where an operator of precedence below p would need parentheses. */
  function Print(e: Expr, p: int): seq<Token>
    decreases e, 1
  {
    if e.Binary? && Precedence(e.op) < p then [Char('(')] + PrintBare(e) + [Char(')')] else PrintBare(e)
  }

  /** Left operands may repeat the operator's precedence, right operands must exceed it. */
  function PrintBare(e: Expr): seq<Token>
    decreases e, 0
  {
    match e
    case Num(text) => [Number(text)]
    case Variable(name) => [Identifier(name)]
    case Binary(op, l, r) => Print(l, Precedence(op)) + [Char(op)] + Print(r, Precedence(op) + 1)
    case Call(callee, args) => [Identifier(callee), Char('(')] + PrintArgs(args) + [Char(')')]
  }

  function PrintArgs(args: seq<Expr>): seq<Token>
    decreases args, 2
  {
    if args == [] then []
    else if |args| == 1 then Print(args[0], 0)
    else Print(args[0], 0) + [Char(',')] + PrintArgs(args[1..])
  }

  /** What may follow an expression printed for precedence p: no operator that would take it as its left operand
      first, and no parenthesis that would make a name a call. */
  predicate Closes(ts: seq<Token>, p: int) { TokPrecedence(ts) <= p && !At(ts, '(') }

  /** The loop of ParseBinOpRHS once its right operand is parsed. */
  function Merge(prec: nat, op: char, lhs: Expr, right: Parse<Expr>): Parse<Expr> {
    match right
    case Failed(rest) => Failed(rest)
    case Parsed(rhs, rest) => ParseBinOpRHS(prec, Binary(op, lhs, rhs), rest)
  }

  /** The two ways c3.cpp treats the operator after a right operand are one: parse that operand at the next level. */
  lemma RightOperand(prec: nat, lhs: Expr, ts: seq<Token>)
    requires TokPrecedence(ts) >= prec
    ensures ParseBinOpRHS(prec, lhs, ts) == Merge(prec, ts[0].c, lhs, ParseFrom(TokPrecedence(ts) + 1, ts[1..]))
  {}

  lemma Stops(prec: nat, lhs: Expr, ts: seq<Token>)
    requires TokPrecedence(ts) < prec
    ensures ParseBinOpRHS(prec, lhs, ts) == Parsed(lhs, ts)
  {}

  /** Parsing at level q what was printed for a level p >= q reads exactly the tree, then goes on with the rest. */
  lemma {:induction false} ParsePrinted(e: Expr, p: int, q: nat, rest: seq<Token>)
    requires WellFormed(e) && q <= p && Closes(rest, p)
    ensures ParseFrom(q, Print(e, p) + rest) == ParseBinOpRHS(q, e, rest)
    decreases e, 1
  {
    if e.Binary? && Precedence(e.op) < p {
      var inner := PrintBare(e);
      var ts := Print(e, p) + rest;
      assert ts == [Char('(')] + (inner + ([Char(')')] + rest));
      assert ts[1..] == inner + ([Char(')')] + rest);
      ParseBare(e, 0, 0, [Char(')')] + rest);
      Stops(0, e, [Char(')')] + rest);
      assert ([Char(')')] + rest)[1..] == rest;
      assert ParseExpression(ts[1..]) == Parsed(e, [Char(')')] + rest);
      assert ParseParenExpr(ts[1..]) == Parsed(e, rest);
    } else {
      ParseBare(e, p, q, rest);
    }
  }

  lemma {:induction false} ParseBare(e: Expr, p: int, q: nat, rest: seq<Token>)
    requires WellFormed(e) && q <= p && Closes(rest, p)
    requires e.Binary? ==> p <= Precedence(e.op)
    ensures ParseFrom(q, PrintBare(e) + rest) == ParseBinOpRHS(q, e, rest)
    decreases e, 0
  {
    match e
    case Num(text) =>
      assert (PrintBare(e) + rest)[1..] == rest;
    case Variable(name) =>
      assert (PrintBare(e) + rest)[1..] == rest;
      assert ParseIdentifierExpr(name, rest) == Parsed(e, rest);
    case Binary(op, l, r) =>
      var k := Precedence(op);
      var tail := [Char(op)] + (Print(r, k + 1) + rest);
      assert PrintBare(e) + rest == Print(l, k) + tail;
      ParsePrinted(l, k, q, tail);
      RightOperand(q, l, tail);
      assert tail[1..] == Print(r, k + 1) + rest;
      ParsePrinted(r, k + 1, k + 1, rest);
      Stops(k + 1, r, rest);
    case Call(callee, args) =>
      CallPrinted(callee, args, rest);
  }

  lemma {:induction false} CallPrinted(callee: string, args: seq<Expr>, rest: seq<Token>)
    requires WellFormed(Call(callee, args))
    ensures ParsePrimary(PrintBare(Call(callee, args)) + rest) == Parsed(Call(callee, args), rest)
    decreases args, 3
  {
    var ts := PrintBare(Call(callee, args)) + rest;
    var tail := [Char(')')] + rest;
    assert ts == [Identifier(callee), Char('(')] + (PrintArgs(args) + tail);
    assert ts[1..][1..] == PrintArgs(args) + tail;
    assert tail[1..] == rest;
    if args == [] {
      assert PrintArgs(args) + tail == tail;
      assert ts[1..][2..] == rest;
    } else {
      StartsOperand(args, tail);
      ArgsPrinted([], args, rest);
      assert [] + args == args;
    }
  }

  /** A printed argument list starts with something other than a closing parenthesis. */
  lemma {:induction false} StartsOperand(args: seq<Expr>, rest: seq<Token>)
    requires args != []
    ensures !At(PrintArgs(args) + rest, ')')
    decreases args, 2
  {
    PrintHead(args[0], 0);
  }

  lemma {:induction false} ArgsPrinted(done: seq<Expr>, args: seq<Expr>, rest: seq<Token>)
    requires args != [] && forall i | 0 <= i < |args| :: WellFormed(args[i])
    ensures ParseArgs(done, PrintArgs(args) + ([Char(')')] + rest)) == Parsed(done + args, [Char(')')] + rest)
    decreases args, 2
  {
    var tail := [Char(')')] + rest;
    if |args| == 1 {
      ParsePrinted(args[0], 0, 0, tail);
      Stops(0, args[0], tail);
      assert args == [args[0]];
    } else {
      var more := [Char(',')] + (PrintArgs(args[1..]) + tail);
      assert PrintArgs(args) + tail == Print(args[0], 0) + more;
      ParsePrinted(args[0], 0, 0, more);
      Stops(0, args[0], more);
      assert more[1..] == PrintArgs(args[1..]) + tail;
      ArgsPrinted(done + [args[0]], args[1..], rest);
      assert done + [args[0]] + args[1..] == done + args;
    }
  }

  /** For every tree: precedence and left associativity are read back from the minimal print. */
  lemma ParseExpressionOfPrint(e: Expr, rest: seq<Token>)
    requires WellFormed(e) && Closes(rest, -1)
    ensures ParseExpression(Print(e, 0) + rest) == Parsed(e, rest)
  {
    ParsePrinted(e, 0, 0, rest);
    Stops(0, e, rest);
  }

  // ----- two operators, and errors -----

  /** An operand that nothing binds tighter than. */
  function Atom(e: Expr): seq<Token> {
    if e.Binary? then [Char('(')] + PrintBare(e) + [Char(')')] else PrintBare(e)
  }

  predicate IsOperator(op: char) { op == '<' || op == '+' || op == '-' || op == '*' }

  /** The second operator takes the operand between them: * before + and -, and these before <. */
  predicate TakesMiddle(op1: char, op2: char) {
    || (op1 == '<' && (op2 == '+' || op2 == '-' || op2 == '*'))
    || ((op1 == '+' || op1 == '-') && op2 == '*')
  }

  /** An operand read in front of an operator. */
  lemma OperandThen(q: nat, e: Expr, op: char, more: seq<Token>)
    requires WellFormed(e) && IsOperator(op) && q <= 41
    ensures ParseFrom(q, Atom(e) + ([Char(op)] + more)) == ParseBinOpRHS(q, e, [Char(op)] + more)
  {
    assert Atom(e) == Print(e, 41);
    ParsePrinted(e, 41, q, [Char(op)] + more);
  }

  /** An operator, its right operand, and an operator that does not bind tighter, or the end. */
  lemma OperandLast(q: nat, lhs: Expr, op: char, e: Expr, rest: seq<Token>)
    requires WellFormed(e) && IsOperator(op) && q <= Precedence(op) && Closes(rest, Precedence(op))
    ensures ParseBinOpRHS(q, lhs, [Char(op)] + (Atom(e) + rest)) == ParseBinOpRHS(q, Binary(op, lhs, e), rest)
  {
    var p, ts := Precedence(op), [Char(op)] + (Atom(e) + rest);
    assert Atom(e) == Print(e, 41) && ts[1..] == Atom(e) + rest;
    RightOperand(q, lhs, ts);
    ParsePrinted(e, 41, p + 1, rest);
    Stops(p + 1, e, rest);
  }

  /** An operator, its right operand, and an operator that binds tighter. */
  lemma OperandFirst(q: nat, lhs: Expr, op: char, e: Expr, op2: char, more: seq<Token>, right: Expr, rest: seq<Token>)
    requires WellFormed(e) && IsOperator(op) && IsOperator(op2) && q <= Precedence(op)
    requires ParseBinOpRHS(Precedence(op) + 1, e, [Char(op2)] + more) == Parsed(right, rest)
    ensures ParseBinOpRHS(q, lhs, [Char(op)] + (Atom(e) + ([Char(op2)] + more))) == ParseBinOpRHS(q, Binary(op, lhs, right), rest)
  {
    var ts := [Char(op)] + (Atom(e) + ([Char(op2)] + more));
    assert ts[1..] == Atom(e) + ([Char(op2)] + more);
    RightOperand(q, lhs, ts);
    OperandThen(Precedence(op) + 1, e, op2, more);
  }

  /** x op1 y op2 z groups to the left unless the second operator binds tighter. */
  lemma OperatorsBind(x: Expr, op1: char, y: Expr, op2: char, z: Expr, rest: seq<Token>)
    requires WellFormed(x) && WellFormed(y) && WellFormed(z) && IsOperator(op1) && IsOperator(op2) && Closes(rest, -1)
    ensures ParseExpression(Atom(x) + ([Char(op1)] + (Atom(y) + ([Char(op2)] + (Atom(z) + rest)))))
         == Parsed(if TakesMiddle(op1, op2) then Binary(op1, x, Binary(op2, y, z)) else Binary(op2, Binary(op1, x, y), z), rest)
  {
    var p1, p2 := Precedence(op1), Precedence(op2);
    var t2 := [Char(op2)] + (Atom(z) + rest);
    assert TakesMiddle(op1, op2) <==> p1 < p2;
    assert 0 < p1 <= 40 && 0 < p2 <= 40 && Closes(rest, p2) && TokPrecedence(rest) < 0 && Closes(t2, p2);
    hide Atom, WellFormed, ParseBinOpRHS, ParseFrom, Precedence, TakesMiddle, IsOperator;
    OperandThen(0, x, op1, Atom(y) + t2);
    if p1 < p2 {
      OperandLast(p1 + 1, y, op2, z, rest);
      Stops(p1 + 1, Binary(op2, y, z), rest);
      OperandFirst(0, x, op1, y, op2, Atom(z) + rest, Binary(op2, y, z), rest);
      Stops(0, Binary(op1, x, Binary(op2, y, z)), rest);
    } else {
      OperandLast(0, x, op1, y, t2);
      OperandLast(0, Binary(op1, x, y), op2, z, rest);
      Stops(0, Binary(op2, Binary(op1, x, y), z), rest);
    }
  }

  /** After an error the token that caused it is skipped and nothing else: one that is no name after def or extern. */
  lemma NamelessSkipsOne(t: Token, rest: seq<Token>)
    requires !t.Identifier?
    ensures Program([Def, t] + rest) == Program(rest) == Program([Extern, t] + rest)
  {
    assert ([Def, t] + rest)[1..] == [t] + rest && ([Extern, t] + rest)[1..] == [t] + rest && ([t] + rest)[1..] == rest;
  }

  /** One that starts no expression. */
  lemma StraySkipsOne(c: char, rest: seq<Token>)
    requires c != '('
    ensures Program([Char(c)] + rest) == Program(rest)
  {
    var ts := [Char(c)] + rest;
    assert ts[1..] == rest;
    assert ParsePrimary(ts) == Failed(ts);
    assert ParseExpression(ts) == Failed(ts);
  }

  /** One in the place of a closing parenthesis. */
  lemma UnclosedSkipsOne(e: Expr, t: Token, rest: seq<Token>)
    requires WellFormed(e) && Closes([t], -1) && t != Char(')')
    ensures Program([Char('(')] + (Print(e, 0) + ([t] + rest))) == Program(rest)
  {
    var ts := [Char('(')] + (Print(e, 0) + ([t] + rest));
    ParseExpressionOfPrint(e, [t] + rest);
    assert ts[1..] == Print(e, 0) + ([t] + rest) && ([t] + rest)[1..] == rest;
    hide Print, WellFormed;
    assert ParseParenExpr(ts[1..]) == Failed([t] + rest);
    assert ParsePrimary(ts) == Failed([t] + rest);
    assert ParseExpression(ts) == Failed([t] + rest);
  }

  // ----- the print is the shortest -----

  function Max(a: int, b: int): int { if a < b then b else a }

  lemma {:induction false} PrimaryCost(ts: seq<Token>, m: int)
    requires ParsePrimary(ts).Parsed?
    ensures var r := ParsePrimary(ts); WellFormed(r.value) && |Print(r.value, m)| <= |ts| - |r.rest|
    decreases |ts|, 1
  {
    match ts[0]
    case Number(_) =>
    case Char(_) =>
      assert ParseParenExpr(ts[1..]) == ParsePrimary(ts);
      assert ParseExpression(ts[1..]).Parsed?;
      FromCost(0, ts[1..]);
    case Identifier(name) =>
      assert ParseIdentifierExpr(name, ts[1..]) == ParsePrimary(ts);
      var t := ts[1..];
      if At(t, '(') && !At(t[1..], ')') {
        ArgsCost([], t[1..]);
        var args := ParseArgs([], t[1..]).value;
        assert args[0..] == args;
        assert ParsePrimary(ts).value == Call(name, args);
        assert |Print(Call(name, args), m)| == |PrintArgs(args)| + 3;
      } else if At(t, '(') {
        assert ParsePrimary(ts).value == Call(name, []);
        assert |PrintArgs([])| == 0;
      }
  }

  /** However an argument list is written, its print is no longer. */
  lemma {:induction false} ArgsCost(done: seq<Expr>, ts: seq<Token>)
    requires ParseArgs(done, ts).Parsed?
    ensures var r := ParseArgs(done, ts);
            && |done| < |r.value| && r.value[..|done|] == done
            && (forall i | |done| <= i < |r.value| :: WellFormed(r.value[i]))
            && |PrintArgs(r.value[|done|..])| <= |ts| - |r.rest|
    decreases |ts|, 4
  {
    assert ParseExpression(ts) == ParseFrom(0, ts);
    FromCost(0, ts);
    var e, rest := ParseExpression(ts).value, ParseExpression(ts).rest;
    var all := ParseArgs(done, ts).value;
    if At(rest, ')') {
      assert all[|done|..] == [e];
    } else {
      ArgsCost(done + [e], rest[1..]);
      assert all[|done|] == all[..|done| + 1][|done|] == e;
      assert all[..|done|] == all[..|done| + 1][..|done|];
      assert all[|done|..][1..] == all[|done| + 1..];
    }
  }

  /** A tree parsed at level q prints at level q in no more tokens than were consumed, and what follows it is an
      operator of lower precedence or none. */
  lemma {:induction false} FromCost(q: nat, ts: seq<Token>)
    requires ParseFrom(q, ts).Parsed?
    ensures var r := ParseFrom(q, ts);
            WellFormed(r.value) && TokPrecedence(r.rest) < q && |Print(r.value, q)| <= |ts| - |r.rest|
    decreases |ts|, 2
  {
    var lhs, rest := ParsePrimary(ts).value, ParsePrimary(ts).rest;
    PrimaryCost(ts, Max(q, TokPrecedence(rest)));
    RhsCost(q, lhs, rest, |ts| - |rest|);
  }

  lemma {:induction false} RhsCost(q: nat, lhs: Expr, ts: seq<Token>, cost: int)
    requires ParseBinOpRHS(q, lhs, ts).Parsed? && WellFormed(lhs)
    requires |Print(lhs, Max(q, TokPrecedence(ts)))| <= cost
    ensures var r := ParseBinOpRHS(q, lhs, ts);
            WellFormed(r.value) && TokPrecedence(r.rest) < q && |Print(r.value, q)| <= cost + |ts| - |r.rest|
    decreases |ts|, 0
  {
    var k := TokPrecedence(ts);
    if k >= q {
      RightOperand(q, lhs, ts);
      var right := ParseFrom(k + 1, ts[1..]);
      FromCost(k + 1, ts[1..]);
      RhsCost(q, Binary(ts[0].c, lhs, right.value), right.rest, cost + |ts| - |right.rest|);
    }
  }

  /** Every way of writing a tree takes at least as many tokens as its minimal print, and every tree the parser
      builds is one that can be printed. */
  lemma PrintIsShortest(ts: seq<Token>)
    requires ParseExpression(ts).Parsed?
    ensures var r := ParseExpression(ts); WellFormed(r.value) && |Print(r.value, 0)| <= |ts| - |r.rest|
  {
    FromCost(0, ts);
  }

  // ----- whole programs -----

  function PrintParams(params: seq<string>): seq<Token> {
    if params == [] then [] else [Identifier(params[0])] + PrintParams(params[1..])
  }

  function PrintPrototype(p: Prototype): seq<Token> {
    [Identifier(p.name), Char('(')] + PrintParams(p.params) + [Char(')')]
  }

  function PrintItem(item: Item): seq<Token> {
    match item
    case Definition(proto, body) => [Def] + PrintPrototype(proto) + Print(body, 0)
    case External(proto) => [Extern] + PrintPrototype(proto)
    case TopLevel(body) => Print(body, 0)
  }

  function PrintProgram(items: seq<Item>): seq<Token> {
    if items == [] then [] else PrintItem(items[0]) + [Char(';')] + PrintProgram(items[1..])
  }

  predicate GoodItem(item: Item) { item.External? || WellFormed(item.body) }

  lemma {:induction false} ParamsPrinted(params: seq<string>, rest: seq<Token>)
    requires rest != [] && !rest[0].Identifier?
    ensures ParseParams(PrintParams(params) + rest) == (params, rest)
  {
    if params == [] {
      assert PrintParams(params) + rest == rest;
    } else {
      var ts := PrintParams(params) + rest;
      assert ts[1..] == PrintParams(params[1..]) + rest;
      ParamsPrinted(params[1..], rest);
      assert [params[0]] + params[1..] == params;
    }
  }

  lemma PrototypePrinted(p: Prototype, rest: seq<Token>)
    ensures ParsePrototype(PrintPrototype(p) + rest) == Parsed(p, rest)
  {
    var tail := [Char(')')] + rest;
    var ts := PrintPrototype(p) + rest;
    assert ts[2..] == PrintParams(p.params) + tail;
    ParamsPrinted(p.params, tail);
    assert tail[1..] == rest;
  }

  lemma DefinitionPrinted(proto: Prototype, body: Expr, rest: seq<Token>)
    requires WellFormed(body) && At(rest, ';')
    ensures TopStep(PrintItem(Definition(proto, body)) + rest) == Parsed(Definition(proto, body), rest)
  {
    hide Print, PrintPrototype, ParsePrototype, ParseExpression, WellFormed;
    var ts := PrintItem(Definition(proto, body)) + rest;
    var tail := Print(body, 0) + rest;
    assert ts[1..] == PrintPrototype(proto) + tail;
    PrototypePrinted(proto, tail);
    ParseExpressionOfPrint(body, rest);
    assert ParseDefinition(ts[1..]) == Parsed(Definition(proto, body), rest);
  }

  lemma ItemPrinted(item: Item, rest: seq<Token>)
    requires GoodItem(item) && At(rest, ';')
    ensures PrintItem(item) + rest != [] && TopStep(PrintItem(item) + rest) == Parsed(item, rest)
  {
    hide PrintPrototype, ParsePrototype, ParseExpression, ParseDefinition, WellFormed;
    match item
    case Definition(proto, body) =>
      DefinitionPrinted(proto, body, rest);
    case External(proto) =>
      assert (PrintItem(item) + rest)[1..] == PrintPrototype(proto) + rest;
      PrototypePrinted(proto, rest);
    case TopLevel(body) =>
      ParseExpressionOfPrint(body, rest);
      PrintHead(body, 0);
  }

  lemma {:induction false} PrintHead(e: Expr, p: int)
    ensures Print(e, p) != [] && (Print(e, p)[0].Number? || Print(e, p)[0].Identifier? || Print(e, p)[0] == Char('('))
    ensures PrintBare(e) != [] && (PrintBare(e)[0].Number? || PrintBare(e)[0].Identifier? || PrintBare(e)[0] == Char('('))
    decreases e
  {
    if e.Binary? { PrintHead(e.lhs, Precedence(e.op)); }
  }

  /** A printed program is read back item by item. */
  lemma {:induction false} ProgramOfPrint(items: seq<Item>)
    requires forall i | 0 <= i < |items| :: GoodItem(items[i])
    ensures Program(PrintProgram(items)) == items
  {
    if items != [] {
      var rest := [Char(';')] + PrintProgram(items[1..]);
      assert PrintProgram(items) == PrintItem(items[0]) + rest;
      ItemPrinted(items[0], rest);
      assert rest[1..] == PrintProgram(items[1..]);
      assert Program(rest) == Program(rest[1..]);
      ProgramOfPrint(items[1..]);
    }
  }

  /** From source text: a printed program, written with any blanks and comments, lexed and parsed, is the program. */
  lemma ProgramOfText(items: seq<Item>, lead: string, gaps: seq<string>, tail: string)
    requires forall i | 0 <= i < |items| :: GoodItem(items[i])
    requires var ts := PrintProgram(items); (forall i | 0 <= i < |ts| :: Writable(ts[i])) && Separated(ts, gaps)
    requires Gap(lead) && Tail(tail)
    ensures Program(Tokens(lead + (Written(PrintProgram(items), gaps) + tail))) == items
  {
    hide PrintProgram, Tokens, Written, Program;
    TokensOfText(lead, PrintProgram(items), gaps, tail);
    ProgramOfPrint(items);
  }
}
