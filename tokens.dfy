/** The lexer (src/token.c): a cursor over the source text that scans it
    character by character into a list of tokens ending in an EOF token. */
module Tokens {
  import opened Common

  /** Token kinds. The lexer only ever produces `Eof`, `Semicolon` and
      `IntLiteral`; the parser also asks for the others. */
  datatype TokenType =
    | Eof | Semicolon | Plus | Minus | LBrace | RBrace
    | IntLiteral | Identifier | VarKeyword | Equal

  /** A token: its kind, the source buffer it points into, and its half-open
      span `[start, end)` in that buffer. */
  datatype Token = Token(kind: TokenType, src: string, start: Pos, end: Pos)

  /** The span of `t` lies inside its source buffer. */
  predicate WellFormed(t: Token) {
    0 <= t.start.index <= t.end.index <= |t.src|
  }

  /** The text a token stands for. */
  function Lexeme(t: Token): string
    requires WellFormed(t)
  {
    t.src[t.start.index..t.end.index]
  }

  /** `token_lexical`: copies the token's text character by character. */
  method TokenLexical(t: Token) returns (res: string)
    requires WellFormed(t)
    ensures res == Lexeme(t)
    ensures |res| == t.end.index - t.start.index
  {
    var len := t.end.index - t.start.index;
    res := [];
    var i := 0;
    while i < len
      invariant 0 <= i <= len
      invariant res == t.src[t.start.index..t.start.index + i]
    {
      res := res + [t.src[t.start.index + i]];
      i := i + 1;
    }
  }

  // ---------------------------------------------------------------------
  // Character classes (C's isspace and isdigit in the "C" locale)
  // ---------------------------------------------------------------------

  predicate IsSpace(c: char) {
    c == ' ' || c == '\t' || c == '\n' || c == '\r' || c == '\U{000B}' || c == '\U{000C}'
  }

  predicate IsDigit(c: char) {
    '0' <= c <= '9'
  }

  /** A character the lexer accepts somewhere in a program. */
  predicate Allowed(c: char) {
    IsSpace(c) || c == ';' || IsDigit(c)
  }

  // ---------------------------------------------------------------------
  // Line and column of a source index, in closed form
  // ---------------------------------------------------------------------

  /** Number of newline characters in `s`. */
  function Newlines(s: string): nat {
    if |s| == 0 then 0
    else Newlines(s[..|s| - 1]) + (if s[|s| - 1] == '\n' then 1 else 0)
  }

  /** Number of characters after the last newline of `s` (all of `s` if it
      has none). */
  function SinceNewline(s: string): nat {
    if |s| == 0 then 0
    else if s[|s| - 1] == '\n' then 0
    else SinceNewline(s[..|s| - 1]) + 1
  }

  /** The position of index `i`: line = 1 + newlines before it, column =
      1 + characters since the last newline before it. */
  function PosOf(src: string, i: int): Pos
    requires 0 <= i <= |src|
  {
    Pos(i, 1 + Newlines(src[..i]), 1 + SinceNewline(src[..i]))
  }

  /** One step of `lexer_next_char` on the position. */
  function Advance(p: Pos, ch: char): Pos {
    if ch == '\n' then Pos(p.index + 1, p.line + 1, 1)
    else Pos(p.index + 1, p.line, p.column + 1)
  }

  /** Stepping over character `src[i]` moves the position of `i` to the
      position of `i + 1`: the step rule and the closed form agree. */
  lemma PosOfAdvance(src: string, i: int)
    requires 0 <= i < |src|
    ensures PosOf(src, i + 1) == Advance(PosOf(src, i), src[i])
  {
    assert src[..i + 1][..i] == src[..i];
  }

  lemma PosOfInit(src: string)
    ensures PosOf(src, 0) == PosInit
  {
  }

  // ---------------------------------------------------------------------
  // What a correct token list looks like
  // ---------------------------------------------------------------------

  /** Every character of `src[a..b)` is white space. */
  ghost predicate AllSpace(src: string, a: int, b: int) {
    0 <= a <= b <= |src| && forall k :: a <= k < b ==> IsSpace(src[k])
  }

  /** Every character of `src[a..b)` is a decimal digit. */
  ghost predicate AllDigits(src: string, a: int, b: int) {
    0 <= a <= b <= |src| && forall k :: a <= k < b ==> IsDigit(src[k])
  }

  /** A non-EOF token the lexer may produce: a one-character `;`, or a
      maximal run of digits; its span is non-empty and carries the true
      line and column. */
  ghost predicate TokenOk(src: string, t: Token) {
    && t.src == src
    && 0 <= t.start.index < t.end.index <= |src|
    && t.start == PosOf(src, t.start.index)
    && t.end == PosOf(src, t.end.index)
    && match t.kind
       case Semicolon => t.end.index == t.start.index + 1 && src[t.start.index] == ';'
       case IntLiteral =>
         AllDigits(src, t.start.index, t.end.index)
         && (t.end.index == |src| || !IsDigit(src[t.end.index]))
       case _ => false
  }

  /** Where the gap before token `i` starts: the end of token `i - 1`. */
  function GapStart(toks: seq<Token>, i: int): int
    requires 0 <= i <= |toks|
  {
    if i == 0 then 0 else toks[i - 1].end.index
  }

  /** `toks` is the tokenisation of `src[..n)`: every token is well formed,
      tokens follow each other in source order, and every character between
      two tokens (or before the first, or after the last up to `n`) is white
      space. */
  ghost predicate LexedUpTo(src: string, toks: seq<Token>, n: int) {
    && (forall i :: 0 <= i < |toks| ==> TokenOk(src, toks[i]))
    && (forall i {:trigger GapStart(toks, i)} :: 0 <= i < |toks| ==> AllSpace(src, GapStart(toks, i), toks[i].start.index))
    && AllSpace(src, GapStart(toks, |toks|), n)
  }

  /** `src[at]` is the first character the lexer rejects. */
  ghost predicate BadCharacterAt(src: string, at: int) {
    && 0 <= at < |src| && !Allowed(src[at])
    && forall k :: 0 <= k < at ==> Allowed(src[k])
  }

  /** The closing EOF token: an empty span at the end of the source. */
  function EofToken(src: string): Token {
    Token(Eof, src, PosOf(src, |src|), PosOf(src, |src|))
  }

  /** The complete output of the lexer for `src`. */
  ghost predicate LexedWell(src: string, toks: seq<Token>) {
    && |toks| >= 1
    && toks[|toks| - 1] == EofToken(src)
    && LexedUpTo(src, toks[..|toks| - 1], |src|)
  }

  /** Tokens of a lexed prefix do not overlap and appear in source order. */
  lemma {:induction false} LexedOrdered(src: string, toks: seq<Token>, n: int, i: int, j: int)
    requires LexedUpTo(src, toks, n)
    requires 0 <= i < j < |toks|
    ensures toks[i].end.index <= toks[j].start.index
    decreases j - i
  {
    assert AllSpace(src, GapStart(toks, j), toks[j].start.index);
    if i < j - 1 {
      LexedOrdered(src, toks, n, i, j - 1);
      assert TokenOk(src, toks[j - 1]);
    }
  }

  /** Every token of a lexed prefix lies inside that prefix. */
  lemma {:induction false} LexedWithin(src: string, toks: seq<Token>, n: int, i: int)
    requires LexedUpTo(src, toks, n)
    requires 0 <= i < |toks|
    ensures toks[i].end.index <= n
    decreases |toks| - i
  {
    if i == |toks| - 1 {
      assert AllSpace(src, GapStart(toks, |toks|), n);
    } else {
      LexedWithin(src, toks, n, i + 1);
      assert AllSpace(src, GapStart(toks, i + 1), toks[i + 1].start.index);
      assert TokenOk(src, toks[i + 1]);
    }
  }

  /** White space after a lexed prefix extends it. */
  lemma LexedSpace(src: string, toks: seq<Token>, a: int, b: int)
    requires LexedUpTo(src, toks, a) && AllSpace(src, a, b)
    ensures LexedUpTo(src, toks, b)
  {
  }

  /** A well-formed token right after a lexed prefix extends it. */
  lemma LexedAppend(src: string, toks: seq<Token>, t: Token)
    requires LexedUpTo(src, toks, t.start.index) && TokenOk(src, t)
    ensures LexedUpTo(src, toks + [t], t.end.index)
  {
    var toks' := toks + [t];
    forall i | 0 <= i < |toks'|
      ensures TokenOk(src, toks'[i])
      ensures AllSpace(src, GapStart(toks', i), toks'[i].start.index)
    {
      if i < |toks| {
        assert toks'[i] == toks[i];
        assert GapStart(toks', i) == GapStart(toks, i);
      }
    }
  }

  // ---------------------------------------------------------------------
  // The lexer
  // ---------------------------------------------------------------------

  /** The lexer state: the source text, the start of the token being read
      (`prev`), the current position (`cur`) and the tokens read so far (the
      list from `head` to `tail`). */
  class Lexer {
    const src: string
    var prev: Pos
    var cur: Pos
    var tokens: seq<Token>

    /** The cursor is inside the text and its line and column are right. */
    ghost predicate Valid()
      reads this
    {
      0 <= cur.index <= |src| && cur == PosOf(src, cur.index)
    }

    /** `lexer_init`: both positions at the start, no tokens. */
    constructor (source: string)
      ensures src == source && cur == PosInit && prev == PosInit && tokens == []
      ensures Valid()
    {
      src := source;
      cur := PosInit;
      prev := PosInit;
      tokens := [];
      PosOfInit(source);
    }

    /** `lexer_eof`. */
    predicate AtEnd()
      reads this
    {
      cur.index >= |src|
    }

    /** `lexer_current_char`: the character under the cursor, NUL at the end. */
    function CurrentChar(): (c: char)
      requires Valid()
      reads this
      ensures !AtEnd() ==> c == src[cur.index]
    {
      if AtEnd() then '\0' else src[cur.index]
    }

    /** `lexer_next_char`: returns the character under the cursor and steps
        over it; at the end nothing changes and NUL is returned. */
    method NextChar() returns (ch: char)
      requires Valid()
      modifies this`cur
      ensures Valid()
      ensures old(AtEnd()) ==> ch == '\0' && cur == old(cur)
      ensures !old(AtEnd()) ==> ch == src[old(cur.index)] && cur == Advance(old(cur), ch)
      ensures !old(AtEnd()) ==> cur.index == old(cur.index) + 1
    {
      if AtEnd() {
        return '\0';
      }
      ch := CurrentChar();
      PosOfAdvance(src, cur.index);
      var line, column := cur.line, cur.column;
      if ch == '\n' {
        line := line + 1;
        column := 0;
      }
      cur := Pos(cur.index + 1, line, column + 1);
    }

    /** `lexer_append_token`: links a token spanning `prev` to `cur` at the
        tail of the list. */
    method AppendToken(kind: TokenType) returns (k: TokenType)
      modifies this`tokens
      ensures k == kind
      ensures tokens == old(tokens) + [Token(kind, src, prev, cur)]
    {
      tokens := tokens + [Token(kind, src, prev, cur)];
      k := kind;
    }

    /** `lexer_read_token`: skips white space, then reads one `;` or one
        maximal run of digits; any other character is an error. Returns the
        kind of the token appended, or `Eof` when only white space was left. */
    method ReadToken() returns (r: Result<TokenType>)
      requires Valid()
      requires LexedUpTo(src, tokens, cur.index)
      requires forall k :: 0 <= k < cur.index ==> Allowed(src[k])
      modifies this`cur, this`prev, this`tokens
      ensures Valid()
      ensures r.Ok? ==> LexedUpTo(src, tokens, cur.index)
      ensures r.Ok? ==> forall k :: 0 <= k < cur.index ==> Allowed(src[k])
      ensures r.Ok? && !old(AtEnd()) ==> old(cur.index) < cur.index
      ensures r.Ok? ==> (r.value == Eof <==> AtEnd() && tokens == old(tokens))
      ensures r.Ok? && r.value != Eof ==> |tokens| == |old(tokens)| + 1 && tokens[..|old(tokens)|] == old(tokens)
      ensures r.Ok? && r.value != Eof ==> tokens[|tokens| - 1].kind == r.value
      ensures r.Err? ==> r.error.UnexpectedCharacter?
      ensures r.Err? ==> BadCharacterAt(src, r.error.start.index)
      ensures r.Err? ==> r.error.start == PosOf(src, r.error.start.index)
    {
      ghost var start := cur.index;
      SkipSpace();
      LexedSpace(src, tokens, start, cur.index);

      if AtEnd() {
        return Ok(Eof);
      }
      r := ScanToken();
    }

    /** The part of `lexer_read_token` after the white space: `prev` marks
        the token start, one character is consumed and dispatched on. */
    method ScanToken() returns (r: Result<TokenType>)
      requires Valid() && !AtEnd() && !IsSpace(src[cur.index])
      requires LexedUpTo(src, tokens, cur.index)
      requires forall k :: 0 <= k < cur.index ==> Allowed(src[k])
      modifies this`cur, this`prev, this`tokens
      ensures Valid()
      ensures r.Ok? ==> LexedUpTo(src, tokens, cur.index)
      ensures r.Ok? ==> forall k :: 0 <= k < cur.index ==> Allowed(src[k])
      ensures r.Ok? ==> old(cur.index) < cur.index && r.value != Eof
      ensures r.Ok? ==> |tokens| == |old(tokens)| + 1 && tokens[..|old(tokens)|] == old(tokens)
      ensures r.Ok? ==> tokens[|tokens| - 1].kind == r.value
      ensures r.Err? ==> r.error == UnexpectedCharacter(old(cur), PosOf(src, old(cur.index) + 1))
      ensures r.Err? ==> BadCharacterAt(src, old(cur.index))
    {
      prev := cur;
      var ch := NextChar();

      if ch == ';' {
        var t := Token(Semicolon, src, prev, cur);
        assert TokenOk(src, t);
        LexedAppend(src, tokens, t);
        var k := AppendToken(Semicolon);
        return Ok(k);
      } else if IsDigit(ch) {
        SkipDigits();
        var t := Token(IntLiteral, src, prev, cur);
        assert TokenOk(src, t);
        LexedAppend(src, tokens, t);
        var k := AppendToken(IntLiteral);
        return Ok(k);
      }

      return Err(UnexpectedCharacter(prev, cur));
    }

    /** The white-space loop at the head of `lexer_read_token`. */
    method SkipSpace()
      requires Valid()
      modifies this`cur
      ensures Valid() && old(cur.index) <= cur.index
      ensures AllSpace(src, old(cur.index), cur.index)
      ensures AtEnd() || !IsSpace(src[cur.index])
    {
      ghost var start := cur.index;
      while !AtEnd() && IsSpace(CurrentChar())
        invariant Valid() && start <= cur.index
        invariant AllSpace(src, start, cur.index)
        decreases |src| - cur.index
      {
        var _ := NextChar();
      }
    }

    /** The digit loop of `lexer_read_token`: extends the literal begun at
        `prev` to a maximal run of digits. */
    method SkipDigits()
      requires Valid() && 0 <= prev.index < cur.index
      requires AllDigits(src, prev.index, cur.index)
      modifies this`cur
      ensures Valid() && old(cur.index) <= cur.index
      ensures AllDigits(src, prev.index, cur.index)
      ensures AtEnd() || !IsDigit(src[cur.index])
    {
      while !AtEnd() && IsDigit(CurrentChar())
        invariant Valid() && prev.index < cur.index
        invariant old(cur.index) <= cur.index
        invariant AllDigits(src, prev.index, cur.index)
        decreases |src| - cur.index
      {
        var _ := NextChar();
      }
    }
  }

  /** `generate_tokens`: reads tokens until the end of the source, then
      closes the list with an EOF token. The source is accepted exactly when
      it holds only white space, `;` and digits; on failure the error points
      at the first other character. */
  method GenerateTokens(src: string) returns (r: Result<seq<Token>>)
    ensures r.Ok? <==> forall k :: 0 <= k < |src| ==> Allowed(src[k])
    ensures r.Ok? ==> LexedWell(src, r.value)
    ensures r.Err? ==> r.error.UnexpectedCharacter?
    ensures r.Err? ==> BadCharacterAt(src, r.error.start.index)
  {
    var lexer := new Lexer(src);
    while !lexer.AtEnd()
      invariant lexer.Valid() && lexer.src == src
      invariant LexedUpTo(src, lexer.tokens, lexer.cur.index)
      invariant forall k :: 0 <= k < lexer.cur.index ==> Allowed(src[k])
      decreases |src| - lexer.cur.index
    {
      var t := lexer.ReadToken();
      if t.Err? {
        return Err(t.error);
      }
    }
    ghost var body := lexer.tokens;
    lexer.prev := lexer.cur;
    var _ := lexer.AppendToken(Eof);
    assert lexer.tokens[..|lexer.tokens| - 1] == body;
    return Ok(lexer.tokens);
  }
}
