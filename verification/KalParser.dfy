/** The lexer and parser of c3.cpp as they run: global state, loops, and recursion. */
module KalParser {
  import opened KalLexer
  import G = KalGrammar
  import opened KalGrammar

  datatype Option<+T> = None | Some(value: T)

  /** The values of CurTok; names and numbers stay in IdentifierStr and NumVal. */
  datatype Tok = TokEof | TokDef | TokExtern | TokIdentifier | TokNumber | TokChar(c: char)

  /** A returned pointer and the tokens left, as a parse result. */
  function Outcome<T>(r: Option<T>, rest: seq<Token>): Parse<T> {
    if r.Some? then Parsed(r.value, rest) else Failed(rest)
  }

  // ----- facts about the lexer that its loops use -----

  lemma LexSpace(s: string)
    requires s != [] && IsSpace(s[0])
    ensures GetTok(s) == GetTok(s[1..])
  {
    assert s == " "[..0] + s;
    var n := Span(s[1..], IsSpace);
    SpanExact(s, IsSpace, n + 1);
    assert s[n + 1..] == s[1..][n..];
  }

  lemma TokensStep(s: string)
    ensures KalLexer.GetTok(s).AtEof? ==> Tokens(s) == []
    ensures KalLexer.GetTok(s).Lexed? ==> Tokens(s) == [KalLexer.GetTok(s).token] + Tokens(KalLexer.GetTok(s).rest)
    ensures Tokens([]) == []
  {}

  lemma ParamsStep(done: seq<string>, ts: seq<Token>)
    ensures [] + ParseParams(ts).0 == ParseParams(ts).0
    ensures ts == [] || !ts[0].Identifier? ==> ParseParams(ts) == ([], ts) && done + [] == done
    ensures ts != [] && ts[0].Identifier? ==>
              && ParseParams(ts).1 == ParseParams(ts[1..]).1
              && done + ParseParams(ts).0 == (done + [ts[0].name]) + ParseParams(ts[1..]).0
  {}

  lemma NameOf(name: string)
    ensures Word(name) == if name == "def" then Def else if name == "extern" then Extern else Identifier(name)
  {}

  /** gettok once the spaces are skipped, branch by branch. */
  lemma LexAtOnce(t: string)
    requires t != [] ==> !IsSpace(t[0])
    ensures t == [] ==> KalLexer.GetTok(t) == AtEof
    ensures t != [] && IsAlpha(t[0]) ==>
              var n := Span(t, IsAlnum); KalLexer.GetTok(t) == Lexed(Word(t[..n]), t[n..])
    ensures t != [] && IsNumeric(t[0]) ==>
              var n := Span(t, IsNumeric); KalLexer.GetTok(t) == Lexed(Number(t[..n]), t[n..])
    ensures t != [] && t[0] == '#' ==>
              var n := Span(t, NotNewline);
              KalLexer.GetTok(t) == if n < |t| then KalLexer.GetTok(t[n..]) else AtEof
    ensures t != [] && !IsAlpha(t[0]) && !IsNumeric(t[0]) && t[0] != '#' ==>
              KalLexer.GetTok(t) == Lexed(Char(t[0]), t[1..])
  {
    SpanExact(t, IsSpace, 0);
    assert t[0..] == t;
  }

  lemma WordAtOnce(t: string)
    requires t != [] && IsAlpha(t[0])
    ensures var n := Span(t, IsAlnum); KalLexer.GetTok(t) == Lexed(Word(t[..n]), t[n..])
    ensures IsAlnum(t[0])
  {
    LexAtOnce(t);
  }

  class Kaleidoscope {
    var lastChar: Option<char>
    var input: string
    var curTok: Tok
    var identifierStr: string
    var numVal: string

    // ----- what is left to read -----

    ghost function Chars(): string
      reads this
    {
      if lastChar.None? then [] else [lastChar.value] + input
    }

    ghost predicate AtEnd()
      reads this
    {
      lastChar.None? ==> input == []
    }

    function Current(): Token
      requires curTok != TokEof
      reads this
    {
      match curTok
      case TokDef => Def
      case TokExtern => Extern
      case TokIdentifier => Identifier(identifierStr)
      case TokNumber => Number(numVal)
      case TokChar(c) => Char(c)
    }

    /** The tokens not yet consumed, CurTok first. */
    ghost function Stream(): seq<Token>
      reads this
    {
      if curTok == TokEof then [] else [Current()] + Tokens(Chars())
    }

    ghost predicate Valid()
      reads this
    {
      AtEnd() && (curTok == TokEof ==> Tokens(Chars()) == [])
    }

    // ----- the lexer -----

    method GetChar()
      requires AtEnd()
      modifies this`lastChar, this`input
      ensures AtEnd() && Chars() == if old(Chars()) == [] then [] else old(Chars())[1..]
    {
      if input == [] {
        lastChar := None;
      } else {
        lastChar := Some(input[0]);
        input := input[1..];
      }
    }

    /** The globals after gettok ran on the characters s. */
    ghost predicate HasLexed(s: string, tok: Tok)
      reads this
    {
      match KalLexer.GetTok(s)
      case AtEof => tok == TokEof && Chars() == []
      case Lexed(token, rest) => Chars() == rest && Names(tok, token)
    }

    /** The token code and the globals that go with it denote this token. */
    ghost predicate Names(tok: Tok, token: Token)
      reads this
    {
      match tok
      case TokEof => false
      case TokDef => token == Def
      case TokExtern => token == Extern
      case TokIdentifier => token == Identifier(identifierStr)
      case TokNumber => token == Number(numVal)
      case TokChar(c) => token == Char(c)
    }

    method SkipSpaces()
      requires AtEnd()
      modifies this`lastChar, this`input
      ensures AtEnd() && (lastChar.Some? ==> !IsSpace(lastChar.value))
      ensures KalLexer.GetTok(Chars()) == KalLexer.GetTok(old(Chars())) && |Chars()| <= |old(Chars())|
    {
      while lastChar.Some? && IsSpace(lastChar.value)
        invariant AtEnd() && |Chars()| <= |old(Chars())|
        invariant KalLexer.GetTok(Chars()) == KalLexer.GetTok(old(Chars()))
        decreases |Chars()|
      {
        LexSpace(Chars());
        GetChar();
      }
    }

    /** A run of characters of one class, appended to `start`; the first character is taken unseen. */
    method TakeRun(p: char -> bool) returns (word: string)
      requires AtEnd() && lastChar.Some? && p(lastChar.value)
      modifies this`lastChar, this`input
      ensures AtEnd()
      ensures var s := old(Chars()); var n := Span(s, p); word == s[..n] && Chars() == s[n..]
    {
      hide Span;
      ghost var s := Chars();
      word := [lastChar.value];
      GetChar();
      while lastChar.Some? && p(lastChar.value)
        invariant AtEnd() && |word| <= |s| && word == s[..|word|] && Chars() == s[|word|..]
        invariant forall i | 0 <= i < |word| :: p(s[i])
        decreases |Chars()|
      {
        assert lastChar.value == s[|word|];
        word := word + [lastChar.value];
        GetChar();
      }
      SpanExact(s, p, |word|);
    }

    /** The identifier branch. */
    method GetWord() returns (tok: Tok)
      requires AtEnd() && lastChar.Some? && IsAlpha(lastChar.value)
      modifies this`lastChar, this`input, this`identifierStr
      ensures AtEnd() && HasLexed(old(Chars()), tok)
    {
      hide KalLexer.GetTok, Span, Word;
      WordAtOnce(Chars());
      hide IsAlnum, IsAlpha;
      identifierStr := TakeRun(IsAlnum);
      NameOf(identifierStr);
      if identifierStr == "def" { return TokDef; }
      if identifierStr == "extern" { return TokExtern; }
      return TokIdentifier;
    }

    /** The number branch. */
    method GetNumber() returns (tok: Tok)
      requires AtEnd() && lastChar.Some? && IsNumeric(lastChar.value)
      modifies this`lastChar, this`input, this`numVal
      ensures AtEnd() && HasLexed(old(Chars()), tok)
    {
      hide KalLexer.GetTok, Span;
      LexAtOnce(Chars());
      numVal := TakeRun(IsNumeric);
      return TokNumber;
    }

    method GetTok() returns (tok: Tok)
      requires AtEnd()
      modifies this`lastChar, this`input, this`identifierStr, this`numVal
      ensures AtEnd() && HasLexed(old(Chars()), tok)
      decreases |Chars()|
    {
      hide KalLexer.GetTok, Span;
      SkipSpaces();
      ghost var s := Chars();
      LexAtOnce(s);
      if lastChar.None? { return TokEof; }
      if IsAlpha(lastChar.value) {
        tok := GetWord();
        return;
      }
      if IsNumeric(lastChar.value) {
        tok := GetNumber();
        return;
      }
      if lastChar.value == '#' {
        var comment := TakeRun(NotNewline);
        if lastChar.Some? {
          tok := GetTok();
          return;
        }
        return TokEof;
      }
      var thisChar := lastChar.value;
      GetChar();
      return TokChar(thisChar);
    }

    method GetNextToken()
      requires Valid()
      modifies this
      ensures Valid() && Stream() == Next(old(Stream()))
    {
      hide KalLexer.GetTok;
      curTok := GetTok();
    }

    constructor (source: string)
      ensures Valid() && Stream() == Tokens(source)
    {
      lastChar := Some(' ');
      input := source;
      curTok := TokChar(' ');
      identifierStr := "";
      numVal := "";
      new;
      hide KalLexer.GetTok, Tokens;
      LexSpace(Chars());
      assert Chars()[1..] == source;
      TokensStep(Chars());
      TokensStep(source);
      curTok := GetTok();
      if curTok == TokEof { TokensStep([]); }
    }

    // ----- the parser -----

    function GetTokPrecedence(): (p: int)
      reads this
      ensures Valid() ==> p == TokPrecedence(Stream())
    {
      match curTok
      case TokChar(c) => Precedence(c)
      case _ => -1
    }

    method ParseNumberExpr() returns (r: Option<Expr>)
      requires Valid() && curTok == TokNumber
      modifies this
      ensures Valid() && Outcome(r, Stream()) == G.ParsePrimary(old(Stream()))
    {
      hide Tokens;
      r := Some(Num(numVal));
      GetNextToken();
    }

    method ParseParenExpr() returns (r: Option<Expr>)
      requires Valid() && curTok == TokChar('(')
      modifies this
      ensures Valid() && Outcome(r, Stream()) == G.ParsePrimary(old(Stream()))
      decreases |Stream()|, 0
    {
      hide Tokens;
      GetNextToken();
      var v := ParseExpression();
      if v.None? { return None; }
      if curTok != TokChar(')') { return None; }
      GetNextToken();
      return v;
    }

    method ParseIdentifierExpr() returns (r: Option<Expr>)
      requires Valid() && curTok == TokIdentifier
      modifies this
      ensures Valid() && Outcome(r, Stream()) == G.ParsePrimary(old(Stream()))
      decreases |Stream()|, 0
    {
      hide Tokens;
      var idName := identifierStr;
      ghost var ts := Stream()[1..];
      assert G.ParsePrimary(Stream()) == G.ParseIdentifierExpr(idName, ts);
      GetNextToken();
      if curTok != TokChar('(') { return Some(Variable(idName)); }
      GetNextToken();
      assert Stream() == ts[1..];
      hide Stream;
      var args := Some([]);
      if curTok != TokChar(')') {
        args := ParseArgs();
        if args.None? { return None; }
      }
      GetNextToken();
      return Some(Call(idName, args.value));
    }

    /** The argument loop, up to the closing parenthesis. */
    method ParseArgs() returns (r: Option<seq<Expr>>)
      requires Valid()
      modifies this
      ensures Valid() && |Stream()| <= |old(Stream())|
      ensures Outcome(r, Stream()) == G.ParseArgs([], old(Stream()))
      ensures r.Some? ==> curTok == TokChar(')')
      decreases |Stream()|, 4
    {
      hide Tokens;
      var args := [];
      ghost var start := Stream();
      while true
        invariant Valid() && |Stream()| <= |start|
        invariant G.ParseArgs(args, Stream()) == G.ParseArgs([], start)
        decreases |Stream()|
      {
        var arg := ParseExpression();
        if arg.None? { return None; }
        if curTok == TokChar(')') { return Some(args + [arg.value]); }
        if curTok != TokChar(',') { return None; }
        args := args + [arg.value];
        GetNextToken();
      }
    }

    method ParsePrimary() returns (r: Option<Expr>)
      requires Valid()
      modifies this
      ensures Valid() && Outcome(r, Stream()) == G.ParsePrimary(old(Stream()))
      decreases |Stream()|, 1
    {
      hide Tokens;
      match curTok
      case TokIdentifier => r := ParseIdentifierExpr();
      case TokNumber => r := ParseNumberExpr();
      case TokChar(c) => if c == '(' { r := ParseParenExpr(); } else { r := None; }
      case _ => r := None;
    }

    method ParseBinOpRHS(exprPrec: nat, first: Expr) returns (r: Option<Expr>)
      requires Valid()
      modifies this
      ensures Valid() && Outcome(r, Stream()) == G.ParseBinOpRHS(exprPrec, first, old(Stream()))
      decreases |Stream()|, 2
    {
      hide Tokens;
      var lhs := first;
      ghost var start := Stream();
      while true
        invariant Valid() && |Stream()| <= |start|
        invariant G.ParseBinOpRHS(exprPrec, lhs, Stream()) == G.ParseBinOpRHS(exprPrec, first, start)
        decreases |Stream()|
      {
        ghost var ts := Stream();
        var tokPrec := GetTokPrecedence();
        if tokPrec < exprPrec { return Some(lhs); }
        var binOp := curTok.c;
        GetNextToken();
        var rhs := ParsePrimary();
        if rhs.None? { return None; }
        var nextPrec := GetTokPrecedence();
        if tokPrec < nextPrec {
          rhs := ParseBinOpRHS(tokPrec + 1, rhs.value);
          if rhs.None? { return None; }
        }
        lhs := Binary(binOp, lhs, rhs.value);
      }
    }

    method ParseExpression() returns (r: Option<Expr>)
      requires Valid()
      modifies this
      ensures Valid() && Outcome(r, Stream()) == G.ParseExpression(old(Stream()))
      decreases |Stream()|, 3
    {
      hide Tokens;
      var lhs := ParsePrimary();
      if lhs.None? { return None; }
      r := ParseBinOpRHS(0, lhs.value);
    }

    /** The loop over parameter names, entered on the opening parenthesis. */
    method ParseParamNames() returns (argNames: seq<string>)
      requires Valid() && curTok == TokChar('(')
      modifies this
      ensures Valid() && (argNames, Stream()) == ParseParams(old(Stream())[1..])
    {
      hide Tokens, ParseParams;
      argNames := [];
      ghost var ts := Stream()[1..];
      GetNextToken();
      ParamsStep([], ts);
      while curTok == TokIdentifier
        invariant Valid() && |Stream()| <= |ts|
        invariant ParseParams(ts) == (argNames + ParseParams(Stream()).0, ParseParams(Stream()).1)
        decreases |Stream()|
      {
        ParamsStep(argNames, Stream());
        argNames := argNames + [identifierStr];
        GetNextToken();
      }
      ParamsStep(argNames, Stream());
    }

    method ParsePrototype() returns (r: Option<Prototype>)
      requires Valid()
      modifies this
      ensures Valid() && Outcome(r, Stream()) == G.ParsePrototype(old(Stream()))
    {
      hide Tokens, ParseParams;
      if curTok != TokIdentifier { return None; }
      var fnName := identifierStr;
      ghost var ts := Stream();
      GetNextToken();
      if curTok != TokChar('(') { return None; }
      assert Stream()[1..] == ts[2..];
      var argNames := ParseParamNames();
      if curTok != TokChar(')') { return None; }
      GetNextToken();
      return Some(Prototype(fnName, argNames));
    }

    method ParseDefinition() returns (r: Option<Item>)
      requires Valid() && curTok == TokDef
      modifies this
      ensures Valid() && Outcome(r, Stream()) == G.ParseDefinition(old(Stream())[1..])
    {
      hide Tokens;
      GetNextToken();
      var proto := ParsePrototype();
      if proto.None? { return None; }
      var e := ParseExpression();
      if e.None? { return None; }
      return Some(Definition(proto.value, e.value));
    }

    // ----- the top level -----

    method HandleDefinition() returns (r: Option<Item>)
      requires Valid() && curTok == TokDef
      modifies this
      ensures Valid() && Outcome(r, Stream()) == TopStep(old(Stream()))
    {
      hide Tokens;
      r := ParseDefinition();
      if r.None? { GetNextToken(); }
    }

    method HandleExtern() returns (r: Option<Item>)
      requires Valid() && curTok == TokExtern
      modifies this
      ensures Valid() && Outcome(r, Stream()) == TopStep(old(Stream()))
    {
      hide Tokens, G.ParsePrototype;
      GetNextToken();
      var proto := ParsePrototype();
      if proto.Some? { return Some(External(proto.value)); }
      GetNextToken();
      return None;
    }

    method HandleTopLevelExpression() returns (r: Option<Item>)
      requires Valid() && curTok !in {TokEof, TokDef, TokExtern, TokChar(';')}
      modifies this
      ensures Valid() && Outcome(r, Stream()) == TopStep(old(Stream()))
    {
      hide Tokens, G.ParseExpression;
      var e := ParseExpression();
      if e.Some? { return Some(TopLevel(e.value)); }
      GetNextToken();
      return None;
    }

    /** The switch of MainLoop. */
    method TopLevelItem() returns (r: Option<Item>)
      requires Valid() && curTok != TokEof
      modifies this
      ensures Valid() && Outcome(r, Stream()) == TopStep(old(Stream()))
    {
      hide Tokens, G.ParseExpression, G.ParseDefinition, G.ParsePrototype;
      if curTok == TokDef {
        r := HandleDefinition();
      } else if curTok == TokExtern {
        r := HandleExtern();
      } else if curTok == TokChar(';') {
        GetNextToken();
        r := None;
      } else {
        r := HandleTopLevelExpression();
      }
    }

    /** MainLoop reads every item of the program and ends, whatever the input. */
    method MainLoop() returns (items: seq<Item>)
      requires Valid()
      modifies this
      ensures Valid() && Stream() == [] && items == Program(old(Stream()))
    {
      hide Tokens, TopStep;
      ghost var start := Stream();
      items := [];
      while curTok != TokEof
        invariant Valid()
        invariant items + Program(Stream()) == Program(start)
        decreases |Stream()|
      {
        ghost var before := items;
        var r := TopLevelItem();
        if r.Some? {
          items := items + [r.value];
          assert before + ([r.value] + Program(Stream())) == items + Program(Stream());
        }
      }
    }
  }
}
