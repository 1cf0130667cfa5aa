/** Syntax trees and the recursive-descent parser (src/ast.c). */
module Ast {
  import opened Common
  import opened Tokens
  import opened Types
  import opened Symbols

  // ---------------------------------------------------------------------
  // Nodes
  // ---------------------------------------------------------------------

  /** The fields the analyzer fills in: data type, name scope, memory scope
      and byte offset. */
  datatype Annotation = Annotation(dataType: Option<Type>, nameScope: Option<ScopeId>,
                                   memoryScope: Option<ScopeId>, offset: int)

  /** What `ast_malloc` puts in a fresh node: no type, no scopes, offset -1. */
  const Unannotated: Annotation := Annotation(None, None, None, -1)

  /** A node: its variant, its source span and its annotation. */
  datatype Node = Node(kind: NodeKind, start: Pos, end: Pos, ann: Annotation)

  /** The node variants. A statement list (the `next`-linked siblings of
      the C code) is a sequence. */
  datatype NodeKind =
    | LiteralExpr(token: Token)
    | IdentifierExpr(token: Token)
    | BinaryExpr(left: Node, op: Token, right: Node)
    | ExprStmt(expr: Node, semicolon: Token)
    | VarStmt(varKeyword: Token, identifier: Token, init: Option<Node>, semicolon: Token)
    | BlockStmt(stmts: seq<Node>)
    | Prog(asts: seq<Node>)

  /** `ast_malloc`: a node of the given variant and span, unannotated. */
  function AstMalloc(kind: NodeKind, start: Pos, end: Pos): Node {
    Node(kind, start, end, Unannotated)
  }

  function AstLiteral(token: Token): Node {
    AstMalloc(LiteralExpr(token), token.start, token.end)
  }

  function AstIdentifier(token: Token): Node {
    AstMalloc(IdentifierExpr(token), token.start, token.end)
  }

  function AstBinary(left: Node, op: Token, right: Node): Node {
    AstMalloc(BinaryExpr(left, op, right), left.start, right.end)
  }

  function AstExprStmt(expr: Node, semicolon: Token): Node {
    AstMalloc(ExprStmt(expr, semicolon), expr.start, semicolon.end)
  }

  function AstVarStmt(varKeyword: Token, identifier: Token, init: Option<Node>, semicolon: Token): Node {
    AstMalloc(VarStmt(varKeyword, identifier, init, semicolon), varKeyword.start, semicolon.end)
  }

  function AstBlockStmt(lparen: Token, stmts: seq<Node>, rparen: Token): Node {
    AstMalloc(BlockStmt(stmts), lparen.start, rparen.end)
  }

  /** `ast_prog`: the program node spans from its first statement's start to
      its last statement's end. */
  method AstProg(asts: seq<Node>) returns (n: Node)
    requires |asts| > 0
    ensures n.kind == Prog(asts) && n.ann == Unannotated
    ensures n.start == asts[0].start && n.end == asts[|asts| - 1].end
  {
    var start := asts[0].start;
    var end := start;
    var i := 0;
    while i < |asts|
      invariant 0 <= i <= |asts|
      invariant i > 0 ==> end == asts[i - 1].end
    {
      end := asts[i].end;
      i := i + 1;
    }
    n := AstMalloc(Prog(asts), start, end);
  }

  // ---------------------------------------------------------------------
  // The grammar, as predicates on nodes
  // ---------------------------------------------------------------------

  /** Every node of the tree still carries the annotation of a fresh node. */
  ghost predicate Fresh(n: Node)
    decreases n
  {
    && n.ann == Unannotated
    && match n.kind
       case LiteralExpr(_) => true
       case IdentifierExpr(_) => true
       case BinaryExpr(l, _, r) => Fresh(l) && Fresh(r)
       case ExprStmt(e, _) => Fresh(e)
       case VarStmt(_, _, init, _) => init.Some? ==> Fresh(init.value)
       case BlockStmt(ss) => forall i :: 0 <= i < |ss| ==> Fresh(ss[i])
       case Prog(ss) => forall i :: 0 <= i < |ss| ==> Fresh(ss[i])
  }

  /** A primary: an int literal or an identifier. */
  ghost predicate IsPrimary(n: Node) {
    || (n.kind.LiteralExpr? && n.kind.token.kind == IntLiteral)
    || (n.kind.IdentifierExpr? && n.kind.token.kind == Identifier)
  }

  /** An additive expression built left-associatively: the right operand of
      every `+`/`-` is a primary, so `a - b + c` is `(a - b) + c`. */
  ghost predicate LeftChain(n: Node)
    decreases n
  {
    || IsPrimary(n)
    || (&& n.kind.BinaryExpr?
        && (n.kind.op.kind == Plus || n.kind.op.kind == Minus)
        && LeftChain(n.kind.left)
        && IsPrimary(n.kind.right))
  }

  /** A statement as the parser builds it. */
  ghost predicate Statement(n: Node)
    decreases n
  {
    match n.kind
    case ExprStmt(e, semi) => LeftChain(e) && semi.kind == Semicolon
    case VarStmt(kw, id, init, semi) =>
      && kw.kind == VarKeyword && id.kind == Identifier && semi.kind == Semicolon
      && (init.Some? ==> LeftChain(init.value))
    case BlockStmt(ss) => forall i :: 0 <= i < |ss| ==> Statement(ss[i])
    case _ => false
  }

  /** One slot of a token pattern: the very token a node stores, or a token
      of some kind that the node does not store (`=`, `{`, `}`). */
  datatype TokenPat = Exactly(token: Token) | AnyOf(kind: TokenType)

  predicate Admits(p: TokenPat, t: Token) {
    match p
    case Exactly(u) => u == t
    case AnyOf(k) => t.kind == k
  }

  /** The token pattern `ps` admits the tokens `ts`, slot by slot. */
  ghost predicate Fits(ps: seq<TokenPat>, ts: seq<Token>)
    decreases |ps|
  {
    && |ps| == |ts|
    && (|ps| > 0 ==> Admits(ps[0], ts[0]) && Fits(ps[1..], ts[1..]))
  }

  lemma {:induction false} FitsAppend(p: seq<TokenPat>, t: seq<Token>, q: seq<TokenPat>, u: seq<Token>)
    requires Fits(p, t) && Fits(q, u)
    ensures Fits(p + q, t + u)
    decreases |p|
  {
    if |p| > 0 {
      FitsAppend(p[1..], t[1..], q, u);
      assert (p + q)[1..] == p[1..] + q;
      assert (t + u)[1..] == t[1..] + u;
    } else {
      assert p + q == q && t + u == u;
    }
  }

  /** The tokens a node was parsed from, in source order. */
  function Pattern(n: Node): seq<TokenPat>
    decreases n
  {
    match n.kind
    case LiteralExpr(t) => [Exactly(t)]
    case IdentifierExpr(t) => [Exactly(t)]
    case BinaryExpr(l, op, r) => Pattern(l) + [Exactly(op)] + Pattern(r)
    case ExprStmt(e, semi) => Pattern(e) + [Exactly(semi)]
    case VarStmt(kw, id, init, semi) =>
      [Exactly(kw), Exactly(id)] + InitPattern(init) + [Exactly(semi)]
    case BlockStmt(ss) => [AnyOf(LBrace)] + Patterns(ss) + [AnyOf(RBrace)]
    case Prog(ss) => Patterns(ss)
  }

  /** The tokens of an optional `= expr` initializer. */
  function InitPattern(init: Option<Node>): seq<TokenPat>
    decreases init
  {
    if init.Some? then [AnyOf(Equal)] + Pattern(init.value) else []
  }

  function Patterns(ns: seq<Node>): seq<TokenPat>
    decreases ns
  {
    if |ns| == 0 then [] else Patterns(ns[..|ns| - 1]) + Pattern(ns[|ns| - 1])
  }

  lemma FitsJoin(ts: seq<Token>, a: int, b: int, c: int, p: seq<TokenPat>, q: seq<TokenPat>)
    requires 0 <= a <= b <= c <= |ts|
    requires Fits(p, ts[a..b]) && Fits(q, ts[b..c])
    ensures Fits(p + q, ts[a..c])
  {
    FitsAppend(p, ts[a..b], q, ts[b..c]);
    assert ts[a..c] == ts[a..b] + ts[b..c];
  }

  /** Index of the first end-of-file token. */
  function FirstEof(ts: seq<Token>): (k: nat)
    requires exists j :: 0 <= j < |ts| && ts[j].kind == Eof
    ensures k < |ts| && ts[k].kind == Eof
    ensures forall j :: 0 <= j < k ==> ts[j].kind != Eof
  {
    if ts[0].kind == Eof then 0 else 1 + FirstEof(ts[1..])
  }

  /** Errors the parser reports after reading at least one statement token. */
  predicate StatementError(e: Error) {
    e.UnclosedBlock? || e.ExpectedIdentifier? || e.ExpectedVarSemicolon?
    || e.ExpectedExprSemicolon? || e.ExpectedPrimary?
  }

  /** A token list as the lexer hands it over: terminated by end-of-file. */
  ghost predicate Terminated(ts: seq<Token>) {
    |ts| > 0 && ts[|ts| - 1].kind == Eof
  }

  /** `n` was parsed from `ts[a..b]`: its pattern fits those tokens, none of
      them is end-of-file, it spans them and it is unannotated. */
  ghost predicate Parsed(ts: seq<Token>, a: int, b: int, n: Node) {
    && 0 <= a < b <= |ts|
    && Fits(Pattern(n), ts[a..b])
    && (forall j :: a <= j < b ==> ts[j].kind != Eof)
    && n.start == ts[a].start && n.end == ts[b - 1].end
    && Fresh(n)
  }

  // ---------------------------------------------------------------------
  // How parsed pieces compose
  // ---------------------------------------------------------------------

  lemma FitsOne(ts: seq<Token>, a: int, p: TokenPat)
    requires 0 <= a < |ts| && Admits(p, ts[a])
    ensures Fits([p], ts[a..a + 1])
  {
    assert [p][1..] == [] && ts[a..a + 1][1..] == [];
  }

  /** A `+`/`-` token between two parsed operands. */
  lemma ParsedBinary(ts: seq<Token>, a: int, b: int, c: int, left: Node, right: Node)
    requires Parsed(ts, a, b, left) && Parsed(ts, b + 1, c, right)
    requires ts[b].kind != Eof
    ensures Parsed(ts, a, c, AstBinary(left, ts[b], right))
  {
    FitsOne(ts, b, Exactly(ts[b]));
    FitsJoin(ts, a, b, b + 1, Pattern(left), [Exactly(ts[b])]);
    FitsJoin(ts, a, b + 1, c, Pattern(left) + [Exactly(ts[b])], Pattern(right));
  }

  /** A parsed expression followed by `;`. */
  lemma ParsedExprStmt(ts: seq<Token>, a: int, b: int, expr: Node)
    requires Parsed(ts, a, b, expr) && b < |ts| && ts[b].kind == Semicolon
    ensures Parsed(ts, a, b + 1, AstExprStmt(expr, ts[b]))
  {
    FitsOne(ts, b, Exactly(ts[b]));
    FitsJoin(ts, a, b, b + 1, Pattern(expr), [Exactly(ts[b])]);
  }

  /** `=` followed by a parsed expression. */
  lemma ParsedInit(ts: seq<Token>, a: int, b: int, e: Node)
    requires 0 <= a && Parsed(ts, a + 1, b, e) && ts[a].kind == Equal
    ensures Fits(InitPattern(Some(e)), ts[a..b])
  {
    FitsOne(ts, a, AnyOf(Equal));
    FitsJoin(ts, a, a + 1, b, [AnyOf(Equal)], Pattern(e));
  }

  /** `var`, an identifier, an optional initializer in `ts[a + 2..c]`, `;`. */
  lemma ParsedVarStmt(ts: seq<Token>, a: int, c: int, init: Option<Node>, n: Node)
    requires 0 <= a && a + 2 <= c < |ts|
    requires ts[a].kind == VarKeyword && ts[a + 1].kind == Identifier && ts[c].kind == Semicolon
    requires Fits(InitPattern(init), ts[a + 2..c])
    requires forall j :: a + 2 <= j < c ==> ts[j].kind != Eof
    requires init.Some? ==> Fresh(init.value)
    requires n == AstVarStmt(ts[a], ts[a + 1], init, ts[c])
    ensures Parsed(ts, a, c + 1, n)
  {
    var head := [Exactly(ts[a]), Exactly(ts[a + 1])];
    assert Fits(head, ts[a..a + 2]) by {
      assert head[1..] == [Exactly(ts[a + 1])] && ts[a..a + 2][1..] == ts[a + 1..a + 2];
      FitsOne(ts, a + 1, Exactly(ts[a + 1]));
    }
    FitsJoin(ts, a, a + 2, c, head, InitPattern(init));
    FitsOne(ts, c, Exactly(ts[c]));
    FitsJoin(ts, a, c, c + 1, head + InitPattern(init), [Exactly(ts[c])]);
  }

  /** One more parsed statement at the tail of a statement list. */
  lemma PatternsAppend(ts: seq<Token>, a: int, b: int, c: int, stmts: seq<Node>, stmt: Node)
    requires 0 <= a <= b <= |ts| && Fits(Patterns(stmts), ts[a..b]) && Parsed(ts, b, c, stmt)
    ensures Fits(Patterns(stmts + [stmt]), ts[a..c])
  {
    assert (stmts + [stmt])[..|stmts|] == stmts;
    FitsJoin(ts, a, b, c, Patterns(stmts), Pattern(stmt));
  }

  /** `{`, a parsed statement list, `}`. */
  lemma ParsedBlock(ts: seq<Token>, a: int, b: int, stmts: seq<Node>, n: Node)
    requires 0 <= a < b < |ts|
    requires ts[a].kind == LBrace && ts[b].kind == RBrace
    requires Fits([AnyOf(LBrace)] + Patterns(stmts) + [AnyOf(RBrace)], ts[a..b + 1])
    requires forall j :: a <= j < b ==> ts[j].kind != Eof
    requires forall i :: 0 <= i < |stmts| ==> Fresh(stmts[i]) && Statement(stmts[i])
    requires n == AstBlockStmt(ts[a], stmts, ts[b])
    ensures Parsed(ts, a, b + 1, n) && Statement(n)
  {
  }

  lemma BracedFits(ts: seq<Token>, a: int, b: int, p: seq<TokenPat>)
    requires 0 <= a < b < |ts|
    requires ts[a].kind == LBrace && ts[b].kind == RBrace
    requires Fits(p, ts[a + 1..b])
    ensures Fits([AnyOf(LBrace)] + p + [AnyOf(RBrace)], ts[a..b + 1])
  {
    FitsOne(ts, a, AnyOf(LBrace));
    FitsJoin(ts, a, a + 1, b, [AnyOf(LBrace)], p);
    FitsOne(ts, b, AnyOf(RBrace));
    FitsJoin(ts, a, b, b + 1, [AnyOf(LBrace)] + p, [AnyOf(RBrace)]);
  }

  /** The statements in front of end-of-file, as a program node. */
  lemma ParsedProg(ts: seq<Token>, c: int, stmts: seq<Node>, n: Node)
    requires 0 < c <= |ts| && Fits(Patterns(stmts), ts[0..c])
    requires forall j :: 0 <= j < c ==> ts[j].kind != Eof
    requires forall i :: 0 <= i < |stmts| ==> Fresh(stmts[i])
    requires n.kind == Prog(stmts) && n.ann == Unannotated
    requires n.start == ts[0].start && n.end == ts[c - 1].end
    ensures Parsed(ts, 0, c, n)
  {
  }

  // ---------------------------------------------------------------------
  // The parser
  // ---------------------------------------------------------------------

  /** The static `parser` cursor: the token list, the current position and
      the last token consumed. */
  class Parser {
    const tokens: seq<Token>
    var cur: nat
    var prev: Token

    ghost predicate Valid()
      reads this
    {
      Terminated(tokens) && cur < |tokens|
    }

    /** `parser_init`: the cursor at the first token and an end-of-file
        token as the previous one. */
    constructor (ts: seq<Token>)
      requires Terminated(ts)
      ensures Valid() && tokens == ts && cur == 0 && prev.kind == Eof
    {
      tokens := ts;
      cur := 0;
      prev := Token(Eof, [], Pos(0, 0, 0), Pos(0, 0, 0));
    }

    /** `parser_current`. */
    function Current(): Token
      reads this
      requires Valid()
    {
      tokens[cur]
    }

    /** `parser_eof`. */
    predicate AtEof()
      reads this
      requires Valid()
    {
      tokens[cur].kind == Eof
    }

    /** `parser_next`: consumes the current token. The C cursor would run
        off the list past end-of-file; no caller does that. */
    method Next() returns (t: Token)
      requires Valid() && tokens[cur].kind != Eof
      modifies this
      ensures Valid()
      ensures t == old(tokens[cur]) && cur == old(cur) + 1 && prev == t
    {
      t := tokens[cur];
      prev := t;
      cur := cur + 1;
    }

    /** `parser_match`: consumes the current token exactly when it has the
        requested kind. */
    method Match(kind: TokenType) returns (matched: bool)
      requires Valid() && kind != Eof
      modifies this
      ensures Valid()
      ensures matched <==> old(tokens[cur]).kind == kind
      ensures matched ==> cur == old(cur) + 1 && prev == old(tokens[cur])
      ensures !matched ==> cur == old(cur) && prev == old(prev)
    {
      if tokens[cur].kind == kind {
        var _ := Next();
        return true;
      }
      return false;
    }

    /** `parse_expr_primary`: an int literal or an identifier, anything else
        is an error at the current token. */
    method ParsePrimary() returns (r: Result<Node>)
      requires Valid()
      modifies this
      ensures Valid() && old(cur) <= cur
      ensures r.Ok? <==> old(tokens[cur]).kind == IntLiteral || old(tokens[cur]).kind == Identifier
      ensures r.Ok? ==> Parsed(tokens, old(cur), cur, r.value) && IsPrimary(r.value)
      ensures r.Err? ==> r.error == ExpectedPrimary(old(tokens[cur]).start, old(tokens[cur]).end)
    {
      var token := Current();
      var m := Match(IntLiteral);
      if m {
        return Ok(AstLiteral(token));
      }
      m := Match(Identifier);
      if m {
        return Ok(AstIdentifier(token));
      }
      return Err(ExpectedPrimary(token.start, token.end));
    }

    /** `parse_expr_add` (and `parse_expr`, which only calls it): a primary
        followed by any number of `+`/`-` primary pairs, folded to the left.
        It stops at the first token that is neither `+` nor `-`. */
    method ParseExpr() returns (r: Result<Node>)
      requires Valid()
      modifies this
      ensures Valid() && old(cur) <= cur
      ensures r.Ok? ==> Parsed(tokens, old(cur), cur, r.value) && LeftChain(r.value)
      ensures r.Ok? ==> tokens[cur].kind != Plus && tokens[cur].kind != Minus
      ensures r.Err? ==> r.error.ExpectedPrimary?
    {
      var c0 := cur;
      var left :- ParsePrimary();
      while Current().kind == Plus || Current().kind == Minus
        invariant Valid() && Parsed(tokens, c0, cur, left) && LeftChain(left)
        decreases |tokens| - cur
      {
        var c1 := cur;
        var op := Next();
        var right :- ParsePrimary();
        ParsedBinary(tokens, c0, c1, cur, left, right);
        left := AstBinary(left, op, right);
      }
      return Ok(left);
    }

    /** `parse_expr_stmt`: an expression and a `;`. */
    method ParseExprStmt() returns (r: Result<Node>)
      requires Valid()
      modifies this
      ensures Valid() && old(cur) <= cur
      ensures r.Ok? ==> Parsed(tokens, old(cur), cur, r.value) && Statement(r.value) && r.value.kind.ExprStmt?
      ensures r.Err? ==> r.error.ExpectedPrimary? || r.error.ExpectedExprSemicolon?
    {
      var c0 := cur;
      var expr :- ParseExpr();
      var token := Current();
      var m := Match(Semicolon);
      if !m {
        return Err(ExpectedExprSemicolon(expr.start, expr.end));
      }
      ParsedExprStmt(tokens, c0, cur - 1, expr);
      return Ok(AstExprStmt(expr, token));
    }

    /** `parse_var_stmt`, entered just after the `var` keyword: an
        identifier, an optional `= expr`, and a `;`. */
    method ParseVarStmt() returns (r: Result<Node>)
      requires Valid() && cur > 0 && prev == tokens[cur - 1] && prev.kind == VarKeyword
      modifies this
      ensures Valid() && old(cur) <= cur
      ensures r.Ok? ==> Parsed(tokens, old(cur) - 1, cur, r.value) && Statement(r.value) && r.value.kind.VarStmt?
      ensures old(tokens[cur]).kind != Identifier ==>
        r == Err(ExpectedIdentifier(old(tokens[cur]).start, old(tokens[cur]).end))
      ensures r.Err? ==> StatementError(r.error)
    {
      var c0 := cur - 1;
      var varKeyword := prev;
      var identifier := Current();
      var m := Match(Identifier);
      if !m {
        var c := Current();
        return Err(ExpectedIdentifier(c.start, c.end));
      }
      assert tokens[c0] == varKeyword && tokens[c0 + 1] == identifier && cur == c0 + 2;
      var init :- ParseInitializer();
      ghost var c1 := cur;
      var semicolon := Current();
      m := Match(Semicolon);
      if !m {
        var c := Current();
        return Err(ExpectedVarSemicolon(c.start, c.end));
      }
      assert tokens[c1] == semicolon && cur == c1 + 1;
      var stmt := AstVarStmt(varKeyword, identifier, init, semicolon);
      ParsedVarStmt(tokens, c0, c1, init, stmt);
      return Ok(stmt);
    }

    /** The optional `= expr` part of a var statement. */
    method ParseInitializer() returns (r: Result<Option<Node>>)
      requires Valid()
      modifies this
      ensures Valid() && old(cur) <= cur
      ensures r.Ok? ==> Fits(InitPattern(r.value), tokens[old(cur)..cur])
      ensures r.Ok? ==> forall j :: old(cur) <= j < cur ==> tokens[j].kind != Eof
      ensures r.Ok? && r.value.Some? ==> Fresh(r.value.value) && LeftChain(r.value.value)
      ensures r.Ok? ==> (r.value.Some? <==> old(tokens[cur]).kind == Equal)
      ensures r.Err? ==> r.error.ExpectedPrimary?
    {
      var m := Match(Equal);
      if !m {
        return Ok(None);
      }
      var c1 := cur;
      var e :- ParseExpr();
      ParsedInit(tokens, c1 - 1, cur, e);
      return Ok(Some(e));
    }

    /** `parse_block_stmt`, entered just after `{`: statements up to the
        matching `}`; end-of-file before it is an error. */
    method ParseBlockStmt() returns (r: Result<Node>)
      requires Valid() && cur > 0 && prev == tokens[cur - 1] && prev.kind == LBrace
      modifies this
      ensures Valid() && old(cur) <= cur
      ensures r.Ok? ==> Parsed(tokens, old(cur) - 1, cur, r.value) && Statement(r.value) && r.value.kind.BlockStmt?
      ensures r.Err? ==> StatementError(r.error)
      decreases |tokens| - cur, 2
    {
      var c0 := cur - 1;
      var lparen := prev;
      var body, e := ParseBlockBody();
      if body.Err? {
        return Err(body.error);
      }
      var stmts := body.value;
      var block := AstBlockStmt(lparen, stmts, prev);
      BracedFits(tokens, c0, e, Patterns(stmts));
      ParsedBlock(tokens, c0, e, stmts, block);
      return Ok(block);
    }

    /** The loop of `parse_block_stmt`: statements until a `}` is matched,
        which is consumed and sits at position `e`. */
    method ParseBlockBody() returns (r: Result<seq<Node>>, ghost e: int)
      requires Valid()
      modifies this
      ensures Valid() && old(cur) <= cur
      ensures r.Ok? ==> old(cur) <= e && cur == e + 1 && tokens[e].kind == RBrace && prev == tokens[e]
      ensures r.Ok? ==> Fits(Patterns(r.value), tokens[old(cur)..e])
      ensures r.Ok? ==> forall j :: old(cur) <= j < e ==> tokens[j].kind != Eof
      ensures r.Ok? ==> forall i :: 0 <= i < |r.value| ==> Fresh(r.value[i]) && Statement(r.value[i])
      ensures r.Err? ==> StatementError(r.error)
      decreases |tokens| - cur, 1
    {
      var c0 := cur;
      var stmts: seq<Node> := [];
      e := cur;
      var m := Match(RBrace);
      while !m
        invariant Valid() && c0 <= e <= cur
        invariant m ==> cur == e + 1 && tokens[e].kind == RBrace && prev == tokens[e]
        invariant !m ==> cur == e
        invariant Fits(Patterns(stmts), tokens[c0..e])
        invariant forall j :: c0 <= j < e ==> tokens[j].kind != Eof
        invariant forall i :: 0 <= i < |stmts| ==> Fresh(stmts[i]) && Statement(stmts[i])
        decreases |tokens| - cur
      {
        var c := Current();
        if AtEof() {
          return Err(UnclosedBlock(c.start, c.end)), e;
        }
        var stmt := ParseStmt();
        if stmt.Err? {
          return Err(stmt.error), e;
        }
        PatternsAppend(tokens, c0, e, cur, stmts, stmt.value);
        stmts := stmts + [stmt.value];
        e := cur;
        m := Match(RBrace);
      }
      return Ok(stmts), e;
    }

    /** `parse_stmt`: `{` starts a block, `var` a declaration, anything else
        an expression statement. */
    method ParseStmt() returns (r: Result<Node>)
      requires Valid()
      modifies this
      ensures Valid() && old(cur) <= cur
      ensures r.Ok? ==> Parsed(tokens, old(cur), cur, r.value) && Statement(r.value)
      ensures r.Ok? && old(tokens[cur]).kind == LBrace ==> r.value.kind.BlockStmt?
      ensures r.Ok? && old(tokens[cur]).kind == VarKeyword ==> r.value.kind.VarStmt?
      ensures r.Ok? && old(tokens[cur]).kind != LBrace && old(tokens[cur]).kind != VarKeyword ==>
        r.value.kind.ExprStmt?
      ensures r.Err? ==> StatementError(r.error)
      decreases |tokens| - cur, 0
    {
      var m := Match(LBrace);
      if m {
        r := ParseBlockStmt();
        return;
      }
      m := Match(VarKeyword);
      if m {
        r := ParseVarStmt();
        return;
      }
      r := ParseExprStmt();
    }

    /** `parse_prog`: statements up to end-of-file; none at all is an error. */
    method ParseProg() returns (r: Result<Node>)
      requires Valid() && cur == 0
      modifies this
      ensures Valid()
      ensures r.Ok? ==> Parsed(tokens, 0, cur, r.value) && tokens[cur].kind == Eof
      ensures r.Ok? ==> r.value.kind.Prog? && |r.value.kind.asts| > 0
      ensures r.Ok? ==> forall i :: 0 <= i < |r.value.kind.asts| ==> Statement(r.value.kind.asts[i])
      ensures r == Err(EmptyProgram) <==> tokens[0].kind == Eof
      ensures r.Err? && r.error != EmptyProgram ==> StatementError(r.error)
    {
      var stmts :- ParseStmtsToEof();
      if |stmts| == 0 {
        return Err(EmptyProgram);
      }
      var n := AstProg(stmts);
      ParsedProg(tokens, cur, stmts, n);
      return Ok(n);
    }

    /** The loop of `parse_prog`: statements until the current token is
        end-of-file. */
    method ParseStmtsToEof() returns (r: Result<seq<Node>>)
      requires Valid() && cur == 0
      modifies this
      ensures Valid()
      ensures r.Ok? ==> tokens[cur].kind == Eof && Fits(Patterns(r.value), tokens[0..cur])
      ensures r.Ok? ==> forall j :: 0 <= j < cur ==> tokens[j].kind != Eof
      ensures r.Ok? ==> forall i :: 0 <= i < |r.value| ==> Fresh(r.value[i]) && Statement(r.value[i])
      ensures r.Ok? ==> (|r.value| == 0 <==> tokens[0].kind == Eof)
      ensures r.Ok? && |r.value| > 0 ==>
        r.value[0].start == tokens[0].start && r.value[|r.value| - 1].end == tokens[cur - 1].end
      ensures r.Err? ==> StatementError(r.error) && tokens[0].kind != Eof
    {
      var stmts: seq<Node> := [];
      while !AtEof()
        invariant Valid()
        invariant Fits(Patterns(stmts), tokens[0..cur])
        invariant forall j :: 0 <= j < cur ==> tokens[j].kind != Eof
        invariant forall i :: 0 <= i < |stmts| ==> Fresh(stmts[i]) && Statement(stmts[i])
        invariant |stmts| == 0 <==> cur == 0
        invariant |stmts| > 0 ==> stmts[0].start == tokens[0].start && stmts[|stmts| - 1].end == tokens[cur - 1].end
        decreases |tokens| - cur
      {
        var c1 := cur;
        var stmt :- ParseStmt();
        PatternsAppend(tokens, 0, c1, cur, stmts, stmt);
        stmts := stmts + [stmt];
      }
      return Ok(stmts);
    }
  }

  /** `generate_ast`: parses the statements in front of the first
      end-of-file token into a program node. */
  method GenerateAst(tokens: seq<Token>) returns (r: Result<Node>)
    requires Terminated(tokens)
    ensures r.Ok? ==> Fits(Pattern(r.value), tokens[..FirstEof(tokens)]) && Fresh(r.value)
    ensures r.Ok? ==> r.value.kind.Prog? && |r.value.kind.asts| > 0
    ensures r.Ok? ==> forall i :: 0 <= i < |r.value.kind.asts| ==> Statement(r.value.kind.asts[i])
    ensures r == Err(EmptyProgram) <==> tokens[0].kind == Eof
    ensures r.Err? && r.error != EmptyProgram ==> StatementError(r.error)
  {
    var parser := new Parser(tokens);
    r := parser.ParseProg();
    if r.Ok? {
      assert tokens[..parser.cur] == tokens[0..parser.cur];
    }
  }
}
