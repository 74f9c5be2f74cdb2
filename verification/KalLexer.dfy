/** The lexer of c3.cpp. Characters are those of the C locale; a null LastChar stands for EOF. */
module KalLexer {

  datatype Token = Def | Extern | Identifier(name: string) | Number(text: string) | Char(c: char)

  datatype Lexed = Lexed(token: Token, rest: string) | AtEof

  predicate IsSpace(c: char) { c == ' ' || '\t' <= c <= '\r' }

  predicate IsAlpha(c: char) { 'a' <= c <= 'z' || 'A' <= c <= 'Z' }

  predicate IsDigit(c: char) { '0' <= c <= '9' }

  predicate IsAlnum(c: char) { IsAlpha(c) || IsDigit(c) }

  predicate IsNumeric(c: char) { IsDigit(c) || c == '.' }

  predicate NotNewline(c: char) { c != '\n' && c != '\r' }

  // ----- the token that starts a text -----

  /** Length of the longest prefix whose characters all satisfy p. */
  function Span(s: string, p: char -> bool): (n: nat)
    ensures n <= |s| && (forall i | 0 <= i < n :: p(s[i])) && (n < |s| ==> !p(s[n]))
    ensures s != [] && p(s[0]) ==> n > 0
  {
    if s == [] || !p(s[0]) then 0 else 1 + Span(s[1..], p)
  }

  function Word(name: string): Token {
    if name == "def" then Def else if name == "extern" then Extern else Identifier(name)
  }

  /** What a run of characters leaves; the run takes at least the first one. */
  function AfterRun(t: string, p: char -> bool): (rest: string)
    requires t != [] && p(t[0])
    ensures |rest| < |t|
  {
    t[Span(t, p)..]
  }

  /** gettok on the characters not yet consumed. */
  function GetTok(s: string): (r: Lexed)
    ensures r.Lexed? ==> |r.rest| < |s|
    decreases |s|
  {
    hide Span;
    var t := s[Span(s, IsSpace)..];
    if t == [] then AtEof
    else if IsAlpha(t[0]) then Lexed(Word(t[..Span(t, IsAlnum)]), AfterRun(t, IsAlnum))
    else if IsNumeric(t[0]) then Lexed(Number(t[..Span(t, IsNumeric)]), AfterRun(t, IsNumeric))
    else if t[0] == '#' then
      var rest := AfterRun(t, NotNewline);
      if rest != [] then GetTok(rest) else AtEof
    else Lexed(Char(t[0]), t[1..])
  }

  /** All tokens of a text. */
  function Tokens(s: string): seq<Token>
    decreases |s|
  {
    match GetTok(s)
    case AtEof => []
    case Lexed(token, rest) => [token] + Tokens(rest)
  }

  // ----- the classes of characters -----

  const LOWER := "abcdefghijklmnopqrstuvwxyz"
  const UPPER := "ABCDEFGHIJKLMNOPQRSTUVWXYZ"
  const DIGITS := "0123456789"
  const BLANKS := " \t\n\U{000B}\U{000C}\r"

  predicate Letter(c: char) { c in LOWER || c in UPPER }

  lemma LowerAre(c: char)
    ensures 'a' <= c <= 'z' <==> c in LOWER
  {
    if 'a' <= c <= 'z' { assert LOWER[c as int - 'a' as int] == c; }
  }

  lemma UpperAre(c: char)
    ensures 'A' <= c <= 'Z' <==> c in UPPER
  {
    if 'A' <= c <= 'Z' { assert UPPER[c as int - 'A' as int] == c; }
  }

  lemma DigitsAre(c: char)
    ensures IsDigit(c) <==> c in DIGITS
  {
    if IsDigit(c) { assert DIGITS[c as int - '0' as int] == c; }
  }

  lemma BlanksAre(c: char)
    ensures IsSpace(c) <==> c in BLANKS
  {
    if '\t' <= c <= '\r' { assert BLANKS[c as int - '\t' as int + 1] == c; }
  }

  // ----- writing tokens back -----

  /** Tokens that gettok can return for some text. */
  predicate Writable(t: Token) {
    match t
    case Def => true
    case Extern => true
    case Identifier(name) =>
      name != [] && Letter(name[0]) && (forall i | 0 <= i < |name| :: Letter(name[i]) || name[i] in DIGITS)
      && name != "def" && name != "extern"
    case Number(text) => text != [] && forall i | 0 <= i < |text| :: text[i] in DIGITS || text[i] == '.'
    case Char(c) => !Letter(c) && c !in DIGITS && c !in BLANKS && c != '.' && c != '#'
  }

  function Spelling(t: Token): string {
    match t
    case Def => "def"
    case Extern => "extern"
    case Identifier(name) => name
    case Number(text) => text
    case Char(c) => [c]
  }

  /** Blanks, and comments up to the end of their lines. */
  predicate Gap(s: string) {
    s == [] || (s[0] in BLANKS && Gap(s[1..])) || (s[0] == '#' && InComment(s[1..]))
  }

  predicate InComment(s: string) {
    s != [] && if s[0] == '\n' || s[0] == '\r' then Gap(s[1..]) else InComment(s[1..])
  }

  /** What may end a text: nothing, or a comment without an end of line. */
  predicate Tail(s: string) { s == [] || (s[0] == '#' && '\n' !in s && '\r' !in s) }

  /** Written next to each other the two tokens would be read as one, or as others. */
  predicate Sticks(t: Token, u: Token) {
    match t
    case Char(_) => false
    case Number(_) => u.Number?
    case _ => u.Def? || u.Extern? || u.Identifier? || (u.Number? && u.text != [] && u.text[0] != '.')
  }

  /** Each token with what follows it. */
  function Written(ts: seq<Token>, gaps: seq<string>): string
    requires |gaps| == |ts|
  {
    if ts == [] then [] else Spelling(ts[0]) + (gaps[0] + Written(ts[1..], gaps[1..]))
  }

  /** The gaps hold blanks and comments, and are not empty where the tokens would stick. */
  predicate Separated(ts: seq<Token>, gaps: seq<string>) {
    && |gaps| == |ts|
    && (forall i | 0 <= i < |gaps| :: Gap(gaps[i]))
    && (forall i | 0 <= i < |ts| - 1 :: Sticks(ts[i], ts[i + 1]) ==> gaps[i] != [])
  }

  lemma SpanExact(s: string, p: char -> bool, n: nat)
    requires n <= |s| && (forall i | 0 <= i < n :: p(s[i])) && (n < |s| ==> !p(s[n]))
    ensures Span(s, p) == n
  {}

  // ----- blanks and comments -----

  lemma LexSkipsSpace(c: char, s: string)
    requires IsSpace(c)
    ensures GetTok([c] + s) == GetTok(s)
  {
    var n := Span(s, IsSpace);
    var t := [c] + s;
    forall i | 0 <= i < n + 1
      ensures IsSpace(t[i])
    {
      if i > 0 { assert t[i] == s[i - 1]; }
    }
    assert n < |s| ==> t[n + 1] == s[n];
    SpanExact(t, IsSpace, n + 1);
    assert t[n + 1..] == s[n..];
  }

  /** A comment runs to the end of its line, or of the text. */
  lemma LexSkipsComment(c: string, rest: string)
    requires '\n' !in c && '\r' !in c && (rest != [] ==> rest[0] == '\n' || rest[0] == '\r')
    ensures GetTok("#" + c + rest) == if rest == [] then AtEof else GetTok(rest)
  {
    var s := "#" + c + rest;
    SpanExact(s, IsSpace, 0);
    assert s[0..] == s;
    assert forall i | 0 <= i < |c| + 1 :: i > 0 ==> s[i] in c;
    SpanExact(s, NotNewline, |c| + 1);
    assert s[|c| + 1..] == rest;
  }

  lemma LexSkipsLine(g: string, c: nat, s: string)
    requires g != [] && g[0] == '#' && c < |g| - 1 && '\n' !in g[1..][..c] && '\r' !in g[1..][..c]
    requires g[1..][c] == '\n' || g[1..][c] == '\r'
    ensures GetTok(g + s) == GetTok(g[1..][c..][1..] + s)
  {
    var line := g[1..][c..];
    assert g + s == "#" + g[1..][..c] + (line + s);
    assert line + s == [line[0]] + (line[1..] + s);
    hide GetTok;
    LexSkipsComment(g[1..][..c], line + s);
    LexSkipsSpace(line[0], line[1..] + s);
  }

  lemma LexSkipsBlank(g: string, s: string)
    requires g != [] && g[0] in BLANKS
    ensures GetTok(g + s) == GetTok(g[1..] + s)
  {
    BlanksAre(g[0]);
    assert g + s == [g[0]] + (g[1..] + s);
    hide GetTok;
    LexSkipsSpace(g[0], g[1..] + s);
  }

  /** How a gap begins. */
  lemma GapBegins(g: string) returns (c: nat)
    requires Gap(g) && g != [] && !(g[0] in BLANKS && Gap(g[1..]))
    ensures g[0] == '#' && c < |g| - 1 && '\n' !in g[1..][..c] && '\r' !in g[1..][..c]
    ensures (g[1..][c] == '\n' || g[1..][c] == '\r') && Gap(g[1..][c..][1..])
  {
    c := CommentSkipsTo(g[1..]);
  }

  lemma {:induction false} LexSkipsGap(g: string, s: string)
    requires Gap(g)
    ensures GetTok(g + s) == GetTok(s)
    decreases |g|
  {
    if g == [] {
      assert g + s == s;
    } else if g[0] in BLANKS && Gap(g[1..]) {
      hide GetTok, Gap;
      LexSkipsBlank(g, s);
      LexSkipsGap(g[1..], s);
    } else {
      hide GetTok;
      var c := GapBegins(g);
      hide Gap;
      LexSkipsLine(g, c, s);
      LexSkipsGap(g[1..][c..][1..], s);
    }
  }

  /** Where the comment's line ends. */
  lemma {:induction false} CommentSkipsTo(s: string) returns (c: nat)
    requires InComment(s)
    ensures c < |s| && '\n' !in s[..c] && '\r' !in s[..c] && (s[c] == '\n' || s[c] == '\r') && Gap(s[c..][1..])
  {
    if s[0] == '\n' || s[0] == '\r' {
      c := 0;
    } else {
      var d := CommentSkipsTo(s[1..]);
      c := d + 1;
      assert s[..c] == [s[0]] + s[1..][..d];
      assert s[c..] == s[1..][d..];
    }
  }

  // ----- tokens -----

  /** The token does not go on into what follows it. */
  predicate Stops(t: Token, rest: string) {
    rest == [] || (match t
                   case Char(_) => true
                   case Number(_) => !IsNumeric(rest[0])
                   case _ => !IsAlnum(rest[0]))
  }

  lemma SpellingClasses(t: Token)
    requires Writable(t)
    ensures var w := Spelling(t);
            && w != []
            && (t.Char? ==> !IsSpace(t.c) && !IsAlpha(t.c) && !IsNumeric(t.c))
            && (t.Number? ==> forall i | 0 <= i < |w| :: IsNumeric(w[i]))
            && (t.Def? || t.Extern? || t.Identifier? ==> IsAlpha(w[0]) && forall i | 0 <= i < |w| :: IsAlnum(w[i]))
  {
    var w := Spelling(t);
    forall i | 0 <= i < |w|
      ensures (IsAlpha(w[i]) <==> Letter(w[i])) && (IsDigit(w[i]) <==> w[i] in DIGITS) && (IsSpace(w[i]) <==> w[i] in BLANKS)
    {
      LowerAre(w[i]);
      UpperAre(w[i]);
      DigitsAre(w[i]);
      BlanksAre(w[i]);
    }
    assert w[0] == w[0];
    hide IsAlpha, IsDigit, IsSpace, Letter;
  }

  lemma LexSpelling(t: Token, rest: string)
    requires Writable(t) && Stops(t, rest)
    ensures GetTok(Spelling(t) + rest) == Lexed(t, rest)
  {
    var w := Spelling(t);
    var s := w + rest;
    SpellingClasses(t);
    hide Writable, Spelling;
    assert s[0] == w[0];
    SpanExact(s, IsSpace, 0);
    assert s[0..] == s;
    assert s[..|w|] == w && s[|w|..] == rest;
    match t
    case Number(text) =>
      SpanExact(s, IsNumeric, |w|);
    case Char(c) =>
    case _ =>
      SpanExact(s, IsAlnum, |w|);
  }

  /** A gap begins with no character that a token would take. */
  lemma GapStops(t: Token, g: string, rest: string)
    requires Gap(g) && g != []
    ensures Stops(t, g + rest)
  {
    BlanksAre(g[0]);
  }

  /** So does a token that does not stick. */
  lemma TokenStops(t: Token, u: Token, rest: string)
    requires Writable(t) && Writable(u) && !Sticks(t, u)
    ensures Stops(t, Spelling(u) + rest)
  {
    SpellingClasses(u);
    assert (Spelling(u) + rest)[0] == Spelling(u)[0];
    if u.Number? { DigitsAre(u.text[0]); }
    hide Letter;
  }

  lemma TailStops(t: Token, tail: string)
    requires Tail(tail)
    ensures Stops(t, tail) && GetTok(tail) == AtEof
  {
    if tail == [] {
      assert GetTok([]) == AtEof;
    } else {
      assert tail == "#" + tail[1..] + [];
      LexSkipsComment(tail[1..], []);
    }
  }

  lemma WrittenUnfolds(ts: seq<Token>, gaps: seq<string>, tail: string)
    requires |gaps| == |ts|
    ensures ts == [] ==> Written(ts, gaps) + tail == tail
    ensures ts != [] ==>
              Written(ts, gaps) + tail == Spelling(ts[0]) + (gaps[0] + (Written(ts[1..], gaps[1..]) + tail))
  {
    hide Spelling;
  }

  lemma SeparatedRest(ts: seq<Token>, gaps: seq<string>)
    requires ts != [] && Separated(ts, gaps)
    ensures |gaps| == |ts| && Gap(gaps[0]) && Separated(ts[1..], gaps[1..])
    ensures |ts| > 1 && Sticks(ts[0], ts[1]) ==> gaps[0] != []
  {
    hide Gap, Sticks;
  }

  /** The first token stops where its gap, the next token or the tail begins. */
  lemma FirstStops(ts: seq<Token>, gaps: seq<string>, tail: string)
    requires ts != [] && (forall i | 0 <= i < |ts| :: Writable(ts[i])) && Separated(ts, gaps) && Tail(tail)
    ensures |gaps| == |ts| && Stops(ts[0], gaps[0] + (Written(ts[1..], gaps[1..]) + tail))
  {
    hide Writable, Stops, Gap, Tail, Spelling, Sticks, Written, GetTok;
    SeparatedRest(ts, gaps);
    hide Separated;
    var more := Written(ts[1..], gaps[1..]) + tail;
    if gaps[0] != [] {
      GapStops(ts[0], gaps[0], more);
    } else {
      assert gaps[0] + more == more;
      WrittenUnfolds(ts[1..], gaps[1..], tail);
      if |ts| == 1 {
        TailStops(ts[0], tail);
      } else {
        TokenStops(ts[0], ts[1], gaps[1..][0] + (Written(ts[1..][1..], gaps[1..][1..]) + tail));
      }
    }
  }

  /** Lexing undoes writing: every list of writable tokens is read back from every text of it, with any blanks and
      comments before, between and after the tokens, and with none between two that do not stick. */
  lemma {:induction false} TokensOfText(lead: string, ts: seq<Token>, gaps: seq<string>, tail: string)
    requires (forall i | 0 <= i < |ts| :: Writable(ts[i])) && Separated(ts, gaps) && Gap(lead) && Tail(tail)
    ensures |gaps| == |ts| && Tokens(lead + (Written(ts, gaps) + tail)) == ts
    decreases |ts|
  {
    hide GetTok, Gap, Tail, Writable, Spelling, Stops, Sticks, Written, Separated;
    SeparatedLengths(ts, gaps);
    WrittenUnfolds(ts, gaps, tail);
    LexSkipsGap(lead, Written(ts, gaps) + tail);
    if ts == [] {
      TailStops(Def, tail);
    } else {
      SeparatedRest(ts, gaps);
      FirstStops(ts, gaps, tail);
      LexSpelling(ts[0], gaps[0] + (Written(ts[1..], gaps[1..]) + tail));
      TokensOfText(gaps[0], ts[1..], gaps[1..], tail);
    }
  }

  lemma SeparatedLengths(ts: seq<Token>, gaps: seq<string>)
    requires Separated(ts, gaps)
    ensures |gaps| == |ts|
  {}
}
