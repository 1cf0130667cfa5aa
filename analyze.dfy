/** The semantic analyzer (src/analyze.c): declares variables and pools
    literals in the symbol table, resolves identifiers through the chain of
    name scopes, and stamps scopes and types onto the syntax tree. */
module Analyze {
  import opened Common
  import opened Tokens
  import opened Types
  import opened Symbols
  import opened Ast

  // ---------------------------------------------------------------------
  // Name resolution, as a specification
  // ---------------------------------------------------------------------

  /** The scopes met when following `parent` links from `s`, nearest first. */
  function Ancestors(scopes: seq<Scope>, s: Option<ScopeId>): (r: seq<ScopeId>)
    requires ScopesOk(scopes) && (s.Some? ==> s.value < |scopes|)
    ensures forall i :: 0 <= i < |r| ==> r[i] < |scopes|
    ensures s.Some? ==> |r| > 0 && r[0] == s.value
    decreases if s.Some? then s.value + 1 else 0
  {
    if s.None? then [] else [s.value] + Ancestors(scopes, scopes[s.value].parent)
  }

  /** One step of the walk to the root: the scope at position `i` of the
      ancestor list is `c`, and its parent's ancestors are the rest. */
  lemma AncestorsStep(scopes: seq<Scope>, c: ScopeId, anc: seq<ScopeId>, i: nat)
    requires ScopesOk(scopes) && c < |scopes|
    requires i <= |anc| && Ancestors(scopes, Some(c)) == anc[i..]
    ensures i < |anc| && anc[i] == c
    ensures Ancestors(scopes, scopes[c].parent) == anc[i + 1..]
  {
    assert anc[i..][1..] == anc[i + 1..];
  }

  /** Scope `a` is a name scope holding a variable spelled like `token`. */
  predicate Declares(scopes: seq<Scope>, a: ScopeId, token: Token)
    requires ScopesOk(scopes) && a < |scopes| && WellFormed(token)
  {
    scopes[a].kind == NameScope && FindVar(scopes[a].chain, token).Some?
  }

  /** Position in `anc` of the first scope that declares `token`. */
  function NearestDeclaring(scopes: seq<Scope>, anc: seq<ScopeId>, token: Token): (r: Option<nat>)
    requires ScopesOk(scopes) && WellFormed(token)
    requires forall i :: 0 <= i < |anc| ==> anc[i] < |scopes|
    ensures r.Some? ==> r.value < |anc| && Declares(scopes, anc[r.value], token)
    ensures r.Some? ==> forall j :: 0 <= j < r.value ==> !Declares(scopes, anc[j], token)
    ensures r.None? <==> forall j :: 0 <= j < |anc| ==> !Declares(scopes, anc[j], token)
  {
    if |anc| == 0 then None
    else if Declares(scopes, anc[0], token) then Some(0)
    else
      match NearestDeclaring(scopes, anc[1..], token)
      case None => None
      case Some(k) => Some(k + 1)
  }

  /** The variable an identifier denotes when used in scope `s`: the first
      variable with its spelling in the nearest enclosing name scope that
      declares one. Memory scopes on the way are skipped. */
  function Resolve(scopes: seq<Scope>, s: Option<ScopeId>, token: Token): (r: Option<(ScopeId, nat)>)
    requires ScopesOk(scopes) && (s.Some? ==> s.value < |scopes|) && WellFormed(token)
  {
    var anc := Ancestors(scopes, s);
    match NearestDeclaring(scopes, anc, token)
    case None => None
    case Some(i) => Some((anc[i], FindVar(scopes[anc[i]].chain, token).value))
  }

  lemma NearestAt(scopes: seq<Scope>, anc: seq<ScopeId>, token: Token, i: nat)
    requires ScopesOk(scopes) && WellFormed(token)
    requires forall j :: 0 <= j < |anc| ==> anc[j] < |scopes|
    requires i < |anc| && Declares(scopes, anc[i], token)
    requires forall j :: 0 <= j < i ==> !Declares(scopes, anc[j], token)
    ensures NearestDeclaring(scopes, anc, token) == Some(i)
  {
  }

  /** Scopes keep their kind and parent, chains only grow, and new scopes
      are added at the end. */
  ghost predicate Kept(s0: seq<Scope>, s1: seq<Scope>) {
    && |s0| <= |s1|
    && forall s :: 0 <= s < |s0| ==>
         s1[s].kind == s0[s].kind && s1[s].parent == s0[s].parent && s0[s].chain <= s1[s].chain
  }

  /** Kept, and the chains of name scopes are untouched. */
  ghost predicate NamesKept(s0: seq<Scope>, s1: seq<Scope>) {
    && Kept(s0, s1)
    && forall s :: 0 <= s < |s0| && s0[s].kind == NameScope ==> s1[s].chain == s0[s].chain
  }

  lemma {:induction false} AncestorsFrame(s0: seq<Scope>, s1: seq<Scope>, s: Option<ScopeId>)
    requires ScopesOk(s0) && ScopesOk(s1) && Kept(s0, s1)
    requires s.Some? ==> s.value < |s0|
    ensures Ancestors(s1, s) == Ancestors(s0, s)
    decreases if s.Some? then s.value + 1 else 0
  {
    if s.Some? {
      AncestorsFrame(s0, s1, s0[s.value].parent);
    }
  }

  /** Resolution only looks at the chains of name scopes: growing a memory
      scope, adding scopes, or growing a name scope outside the ancestry
      does not change what an identifier denotes. */
  lemma ResolveFrame(s0: seq<Scope>, s1: seq<Scope>, s: Option<ScopeId>, token: Token)
    requires ScopesOk(s0) && ScopesOk(s1) && NamesKept(s0, s1)
    requires (s.Some? ==> s.value < |s0|) && WellFormed(token)
    ensures Resolve(s1, s, token) == Resolve(s0, s, token)
  {
    AncestorsFrame(s0, s1, s);
    var anc := Ancestors(s0, s);
    NearestDeclaringFrame(s0, s1, anc, token);
  }

  lemma {:induction false} NearestDeclaringFrame(s0: seq<Scope>, s1: seq<Scope>, anc: seq<ScopeId>, token: Token)
    requires ScopesOk(s0) && ScopesOk(s1) && NamesKept(s0, s1) && WellFormed(token)
    requires forall i :: 0 <= i < |anc| ==> anc[i] < |s0|
    ensures NearestDeclaring(s1, anc, token) == NearestDeclaring(s0, anc, token)
    decreases |anc|
  {
    if |anc| > 0 {
      assert Declares(s1, anc[0], token) == Declares(s0, anc[0], token);
      if !Declares(s0, anc[0], token) {
        NearestDeclaringFrame(s0, s1, anc[1..], token);
      }
    }
  }

  /** A variable just declared in name scope `b` shadows every declaration
      of the same name in enclosing scopes. */
  lemma DeclarationShadows(scopes: seq<Scope>, b: ScopeId, sym: Symbol)
    requires ScopesOk(scopes) && b < |scopes| && scopes[b].kind == NameScope
    requires sym.kind == VarSymbol && WellFormed(sym.token)
    requires FindVar(scopes[b].chain, sym.token).None?
    ensures ScopesOk(scopes[b := Appended(scopes[b], sym, sym.dataType.size)])
    ensures Resolve(scopes[b := Appended(scopes[b], sym, sym.dataType.size)], Some(b), sym.token) == Some((b, |scopes[b].chain|))
  {
    var s1 := scopes[b := Appended(scopes[b], sym, sym.dataType.size)];
    var c := s1[b].chain;
    assert IsVarFor(c[|c| - 1], sym.token);
    var anc := Ancestors(s1, Some(b));
    assert Declares(s1, anc[0], sym.token);
  }

  // ---------------------------------------------------------------------
  // What the analysis of an expression checks and produces
  // ---------------------------------------------------------------------

  /** Every token of the tree points into its source. */
  ghost predicate TokensOk(n: Node)
    decreases n
  {
    match n.kind
    case LiteralExpr(t) => WellFormed(t)
    case IdentifierExpr(t) => WellFormed(t)
    case BinaryExpr(l, op, r) => TokensOk(l) && TokensOk(r)
    case ExprStmt(e, _) => TokensOk(e)
    case VarStmt(_, id, init, _) => WellFormed(id) && (init.Some? ==> TokensOk(init.value))
    case BlockStmt(ss) => forall i :: 0 <= i < |ss| ==> TokensOk(ss[i])
    case Prog(ss) => forall i :: 0 <= i < |ss| ==> TokensOk(ss[i])
  }

  /** The error analysing expression `e` in name scope `name` stops on, in
      left-to-right order, or None when it succeeds. */
  function ExprCheck(scopes: seq<Scope>, name: ScopeId, e: Node): Option<Error>
    requires ScopesOk(scopes) && name < |scopes| && TokensOk(e)
    decreases e
  {
    match e.kind
    case LiteralExpr(t) => if t.kind == IntLiteral then None else Some(UnknownLiteralKind)
    case IdentifierExpr(t) =>
      if Resolve(scopes, Some(name), t).Some? then None else Some(UnresolvedName(e.start, e.end))
    case BinaryExpr(l, _, r) =>
      if ExprCheck(scopes, name, l).Some? then ExprCheck(scopes, name, l) else ExprCheck(scopes, name, r)
    case _ => Some(UnknownExpressionKind)
  }

  /** `b` is expression `a` with memory scope `mem`, name scope `name` and a
      data type stamped on every node; nothing else differs. A literal is
      an int, a binary expression has its left operand's type. */
  ghost predicate AnnotatedExpr(mem: ScopeId, name: ScopeId, a: Node, b: Node)
    decreases a
  {
    && b.start == a.start && b.end == a.end && b.ann.offset == a.ann.offset
    && b.ann.memoryScope == Some(mem) && b.ann.nameScope == Some(name)
    && b.ann.dataType == Some(IntType)
    && match a.kind
       case LiteralExpr(_) => b.kind == a.kind
       case IdentifierExpr(_) => b.kind == a.kind
       case BinaryExpr(l, op, r) =>
         && b.kind.BinaryExpr? && b.kind.op == op
         && AnnotatedExpr(mem, name, l, b.kind.left) && AnnotatedExpr(mem, name, r, b.kind.right)
         && b.ann.dataType == b.kind.left.ann.dataType
       case _ => false
  }

  /** Every identifier of `b` carries the type of the variable it resolves
      to in `scopes`. */
  ghost predicate ResolvedTypes(scopes: seq<Scope>, name: ScopeId, b: Node)
    requires ScopesOk(scopes) && name < |scopes|
    decreases b
  {
    match b.kind
    case IdentifierExpr(t) =>
      && WellFormed(t)
      && var res := Resolve(scopes, Some(name), t);
      && res.Some?
      && b.ann.dataType == Some(scopes[res.value.0].chain[res.value.1].dataType)
    case BinaryExpr(l, _, r) => ResolvedTypes(scopes, name, l) && ResolvedTypes(scopes, name, r)
    case _ => true
  }

  /** Every int literal of `b` has a slot in `chain`. */
  ghost predicate LiteralsStored(chain: seq<Symbol>, b: Node)
    requires ChainTokensOk(chain)
    decreases b
  {
    match b.kind
    case LiteralExpr(t) => WellFormed(t) && FindLiteral(chain, t, IntType).Some?
    case BinaryExpr(l, _, r) => LiteralsStored(chain, l) && LiteralsStored(chain, r)
    case _ => true
  }

  lemma {:induction false} ExprCheckFrame(s0: seq<Scope>, s1: seq<Scope>, name: ScopeId, e: Node)
    requires ScopesOk(s0) && ScopesOk(s1) && NamesKept(s0, s1) && name < |s0| && TokensOk(e)
    ensures ExprCheck(s1, name, e) == ExprCheck(s0, name, e)
    decreases e
  {
    match e.kind
    case IdentifierExpr(t) => ResolveFrame(s0, s1, Some(name), t);
    case BinaryExpr(l, _, r) =>
      ExprCheckFrame(s0, s1, name, l);
      ExprCheckFrame(s0, s1, name, r);
    case _ =>
  }

  lemma {:induction false} ResolvedTypesFrame(s0: seq<Scope>, s1: seq<Scope>, name: ScopeId, b: Node)
    requires ScopesOk(s0) && ScopesOk(s1) && NamesKept(s0, s1) && name < |s0|
    requires ResolvedTypes(s0, name, b)
    ensures ResolvedTypes(s1, name, b)
    decreases b
  {
    match b.kind
    case IdentifierExpr(t) => ResolveFrame(s0, s1, Some(name), t);
    case BinaryExpr(l, _, r) =>
      ResolvedTypesFrame(s0, s1, name, l);
      ResolvedTypesFrame(s0, s1, name, r);
    case _ =>
  }

  /** A literal found in a chain is found at the same place once the chain
      has grown at its tail. */
  lemma FindLiteralGrown(c: seq<Symbol>, d: seq<Symbol>, t: Token, ty: Type)
    requires ChainTokensOk(d) && c <= d && WellFormed(t)
    requires FindLiteral(c, t, ty).Some?
    ensures FindLiteral(d, t, ty) == FindLiteral(c, t, ty)
  {
    var k := FindLiteral(c, t, ty).value;
    assert d[k] == c[k];
    assert forall j :: 0 <= j < k ==> d[j] == c[j];
  }

  lemma {:induction false} LiteralsStoredGrown(c: seq<Symbol>, d: seq<Symbol>, b: Node)
    requires ChainTokensOk(c) && ChainTokensOk(d) && c <= d && LiteralsStored(c, b)
    ensures LiteralsStored(d, b)
    decreases b
  {
    match b.kind
    case LiteralExpr(t) => FindLiteralGrown(c, d, t, IntType);
    case BinaryExpr(l, _, r) =>
      LiteralsStoredGrown(c, d, l);
      LiteralsStoredGrown(c, d, r);
    case _ =>
  }

  // ---------------------------------------------------------------------
  // What the analysis of a statement produces
  // ---------------------------------------------------------------------

  /** `b` is statement `a` analysed with memory scope `mem` in name scope
      `name`: both scopes are stamped on it (a block gets a new name scope
      whose parent is `name`, and its statements are analysed in it), the
      expressions inside are annotated, and nothing else differs. The
      statement's own data type is left as it was. */
  ghost predicate AnnotatedStmt(scopes: seq<Scope>, mem: ScopeId, name: ScopeId, a: Node, b: Node)
    decreases a
  {
    && b.start == a.start && b.end == a.end
    && b.ann.offset == a.ann.offset && b.ann.dataType == a.ann.dataType
    && b.ann.memoryScope == Some(mem)
    && match a.kind
       case ExprStmt(e, semi) =>
         && b.ann.nameScope == Some(name)
         && b.kind.ExprStmt? && b.kind.semicolon == semi
         && AnnotatedExpr(mem, name, e, b.kind.expr)
       case VarStmt(kw, id, init, semi) =>
         && b.ann.nameScope == Some(name)
         && b.kind.VarStmt? && b.kind.varKeyword == kw && b.kind.identifier == id
         && b.kind.semicolon == semi && b.kind.init.Some? == init.Some?
         && (init.Some? ==> AnnotatedExpr(mem, name, init.value, b.kind.init.value))
       case BlockStmt(ss) =>
         && b.kind.BlockStmt? && b.ann.nameScope.Some?
         && var inner := b.ann.nameScope.value;
         && inner < |scopes| && scopes[inner].kind == NameScope && scopes[inner].parent == Some(name)
         && |b.kind.stmts| == |ss|
         && forall i :: 0 <= i < |ss| ==> AnnotatedStmt(scopes, mem, inner, ss[i], b.kind.stmts[i])
       case _ => false
  }

  /** `b` is program `a` with both global scopes stamped on it and every
      statement analysed in the global name scope. */
  ghost predicate AnnotatedProg(scopes: seq<Scope>, mem: ScopeId, name: ScopeId, a: Node, b: Node) {
    && a.kind.Prog? && b.kind.Prog?
    && b.start == a.start && b.end == a.end
    && b.ann == a.ann.(memoryScope := Some(mem), nameScope := Some(name))
    && |b.kind.asts| == |a.kind.asts|
    && forall i :: 0 <= i < |a.kind.asts| ==> AnnotatedStmt(scopes, mem, name, a.kind.asts[i], b.kind.asts[i])
  }

  lemma {:induction false} AnnotatedStmtKept(s0: seq<Scope>, s1: seq<Scope>, mem: ScopeId, name: ScopeId, a: Node, b: Node)
    requires Kept(s0, s1) && AnnotatedStmt(s0, mem, name, a, b)
    ensures AnnotatedStmt(s1, mem, name, a, b)
    decreases a
  {
    match a.kind
    case BlockStmt(ss) =>
      var inner := b.ann.nameScope.value;
      forall i | 0 <= i < |ss|
        ensures AnnotatedStmt(s1, mem, inner, ss[i], b.kind.stmts[i])
      {
        AnnotatedStmtKept(s0, s1, mem, inner, ss[i], b.kind.stmts[i]);
      }
    case _ =>
  }

  // ---------------------------------------------------------------------
  // The table invariant the analyzer keeps
  // ---------------------------------------------------------------------

  /** No two variables of a chain share a spelling. */
  ghost predicate VarsDistinct(chain: seq<Symbol>)
    requires ChainTokensOk(chain)
  {
    forall i, j :: 0 <= i < j < |chain| && chain[i].kind == VarSymbol ==>
      !IsVarFor(chain[j], chain[i].token)
  }

  /** Every symbol of the scope is an int, and if it is a name scope no
      two of its variables share a spelling. */
  ghost predicate ScopeSound(sc: Scope) {
    && ChainTokensOk(sc.chain)
    && (forall k :: 0 <= k < |sc.chain| ==> sc.chain[k].dataType == IntType)
    && (sc.kind == NameScope ==> VarsDistinct(sc.chain))
  }

  ghost predicate AllSound(scopes: seq<Scope>) {
    forall s :: 0 <= s < |scopes| ==> ScopeSound(scopes[s])
  }

  lemma UpdateKeepsSound(scopes: seq<Scope>, i: int, sc: Scope)
    requires ScopesOk(scopes) && AllSound(scopes) && 0 <= i < |scopes|
    requires ScopeSound(sc) && sc.parent == scopes[i].parent
    ensures ScopesOk(scopes[i := sc]) && AllSound(scopes[i := sc])
  {
  }

  /** The memory scope is a parentless root laid out without gaps or
      overlaps and holds each literal once; name scopes never hold two
      variables of the same name; every symbol is an int. */
  ghost predicate AnalyzerInv(scopes: seq<Scope>, mem: ScopeId) {
    && ScopesOk(scopes) && mem < |scopes|
    && scopes[mem].kind == MemoryScope && scopes[mem].parent.None?
    && WellLaid(scopes[mem])
    && LiteralsPooled(scopes[mem].chain)
    && AllSound(scopes)
  }

  /** The memory scope's slots are disjoint and inside its size. */
  lemma MemoryLayout(scopes: seq<Scope>, mem: ScopeId, i: int, j: int)
    requires AnalyzerInv(scopes, mem)
    requires 0 <= i < j < |scopes[mem].chain|
    ensures 0 <= scopes[mem].chain[i].offset
    ensures scopes[mem].chain[i].offset + 4 <= scopes[mem].chain[j].offset
    ensures scopes[mem].chain[j].offset + 4 <= scopes[mem].size
  {
    assert ScopeSound(scopes[mem]);
    LayoutDisjoint(scopes[mem], i, j);
    LayoutWithin(scopes[mem], i);
    LayoutWithin(scopes[mem], j);
  }

  lemma DistinctAfterAppend(chain: seq<Symbol>, sym: Symbol)
    requires ChainTokensOk(chain) && WellFormed(sym.token) && VarsDistinct(chain)
    requires sym.kind == VarSymbol ==> FindVar(chain, sym.token).None?
    ensures ChainTokensOk(chain + [sym]) && VarsDistinct(chain + [sym])
  {
    var c := chain + [sym];
    forall i, j | 0 <= i < j < |c| && c[i].kind == VarSymbol
      ensures !IsVarFor(c[j], c[i].token)
    {
      if j == |chain| && sym.kind == VarSymbol {
        assert !IsVarFor(chain[i], sym.token);
      }
    }
  }

  /** The scope `s` is a name scope of the table. */
  ghost predicate IsNameScope(scopes: seq<Scope>, s: ScopeId) {
    s < |scopes| && scopes[s].kind == NameScope
  }

  /** Only the memory scope changed, and only by literals at its tail. */
  ghost predicate LiteralsAdded(s0: seq<Scope>, s1: seq<Scope>, mem: ScopeId) {
    && mem < |s0| == |s1|
    && (forall s :: 0 <= s < |s0| && s != mem ==> s1[s] == s0[s])
    && s1[mem].kind == s0[mem].kind && s1[mem].parent == s0[mem].parent
    && s0[mem].chain <= s1[mem].chain
    && forall k :: |s0[mem].chain| <= k < |s1[mem].chain| ==> s1[mem].chain[k].kind == LiteralSymbol
  }

  lemma KeptTrans(s0: seq<Scope>, s1: seq<Scope>, s2: seq<Scope>)
    requires Kept(s0, s1) && Kept(s1, s2)
    ensures Kept(s0, s2)
  {
  }

  lemma LiteralsAddedRefl(s: seq<Scope>, mem: ScopeId)
    requires mem < |s|
    ensures LiteralsAdded(s, s, mem)
  {
  }

  /** Adding literals to the memory scope leaves every name scope alone. */
  lemma LiteralsAddedNamesKept(s0: seq<Scope>, s1: seq<Scope>, mem: ScopeId)
    requires LiteralsAdded(s0, s1, mem) && s0[mem].kind == MemoryScope
    ensures NamesKept(s0, s1)
  {
  }

  lemma LiteralsAddedTrans(s0: seq<Scope>, s1: seq<Scope>, s2: seq<Scope>, mem: ScopeId)
    requires LiteralsAdded(s0, s1, mem) && LiteralsAdded(s1, s2, mem)
    ensures LiteralsAdded(s0, s2, mem)
  {
    forall k | |s0[mem].chain| <= k < |s2[mem].chain|
      ensures s2[mem].chain[k].kind == LiteralSymbol
    {
      if k < |s1[mem].chain| {
        assert s2[mem].chain[k] == s1[mem].chain[k];
      }
    }
  }

  /** The table after a new int literal is pooled in the memory scope. */
  lemma LiteralInserted(s0: seq<Scope>, s1: seq<Scope>, mem: ScopeId, token: Token)
    requires AnalyzerInv(s0, mem) && WellFormed(token)
    requires FindLiteral(s0[mem].chain, token, IntType).None?
    requires s1 == s0[mem := Appended(s0[mem], Symbol(LiteralSymbol, token, IntType, s0[mem].size), IntType.size)]
    ensures AnalyzerInv(s1, mem) && LiteralsAdded(s0, s1, mem)
    ensures s1[mem].chain == s0[mem].chain + [Symbol(LiteralSymbol, token, IntType, s0[mem].size)]
    ensures FindLiteral(s1[mem].chain, token, IntType) == Some(|s0[mem].chain|)
  {
    var sym := Symbol(LiteralSymbol, token, IntType, s0[mem].size);
    var sc := Appended(s0[mem], sym, IntType.size);
    assert ScopeSound(s0[mem]);
    AppendKeepsLayout(s0[mem], sym);
    PooledAfterAppend(s0[mem].chain, sym);
    assert sc.chain == s0[mem].chain + [sym];
    assert LiteralsAdded(s0, s1, mem) by {
      assert forall k :: |s0[mem].chain| <= k < |sc.chain| ==> sc.chain[k] == sym;
    }
    UpdateKeepsSound(s0, mem, sc);
    PooledLiteralIsFound(sc.chain, token, IntType, |s0[mem].chain|);
  }

  /** The table after `sym` is given the next slot of memory scope `mem`. */
  ghost function WithSlot(s0: seq<Scope>, mem: ScopeId, sym: Symbol): seq<Scope>
    requires mem < |s0|
  {
    s0[mem := Appended(s0[mem], sym, IntType.size)]
  }

  /** The table after `sym`, offset unchanged, is linked into name scope
      `name`, which grows by the variable's size. */
  ghost function WithName(s1: seq<Scope>, name: ScopeId, sym: Symbol): seq<Scope>
    requires name < |s1|
  {
    s1[name := s1[name].(chain := s1[name].chain + [sym], size := s1[name].size + IntType.size)]
  }

  /** The table after variable `id` is declared: a fresh slot at the end of
      the memory scope, and a symbol with the same offset in name scope
      `name`. */
  ghost function Declared(s0: seq<Scope>, mem: ScopeId, name: ScopeId, id: Token): seq<Scope>
    requires mem < |s0| && name < |s0|
  {
    var sym := Symbol(VarSymbol, id, IntType, s0[mem].size);
    WithName(WithSlot(s0, mem, sym), name, sym)
  }

  lemma VarInserted(s0: seq<Scope>, mem: ScopeId, name: ScopeId, id: Token)
    requires AnalyzerInv(s0, mem) && IsNameScope(s0, name) && WellFormed(id)
    requires FindVar(s0[name].chain, id).None?
    ensures AnalyzerInv(Declared(s0, mem, name, id), mem) && Kept(s0, Declared(s0, mem, name, id))
  {
    var sym := Symbol(VarSymbol, id, IntType, s0[mem].size);
    VarInMemory(s0, mem, sym);
    var s1 := WithSlot(s0, mem, sym);
    assert s1[name] == s0[name];
    VarInNameScope(s1, mem, name, sym);
    KeptTrans(s0, s1, WithName(s1, name, sym));
  }

  lemma VarInMemory(s0: seq<Scope>, mem: ScopeId, sym: Symbol)
    requires AnalyzerInv(s0, mem) && WellFormed(sym.token)
    requires sym == Symbol(VarSymbol, sym.token, IntType, s0[mem].size)
    ensures AnalyzerInv(WithSlot(s0, mem, sym), mem) && Kept(s0, WithSlot(s0, mem, sym))
  {
    var memScope := Appended(s0[mem], sym, IntType.size);
    assert ScopeSound(s0[mem]);
    AppendKeepsLayout(s0[mem], sym);
    PooledAfterAppend(s0[mem].chain, sym);
    assert memScope.chain == s0[mem].chain + [sym];
    UpdateKeepsSound(s0, mem, memScope);
  }

  lemma VarInNameScope(s1: seq<Scope>, mem: ScopeId, name: ScopeId, sym: Symbol)
    requires AnalyzerInv(s1, mem) && IsNameScope(s1, name) && WellFormed(sym.token)
    requires sym.kind == VarSymbol && sym.dataType == IntType
    requires FindVar(s1[name].chain, sym.token).None?
    ensures AnalyzerInv(WithName(s1, name, sym), mem) && Kept(s1, WithName(s1, name, sym))
  {
    var nameScope := s1[name].(chain := s1[name].chain + [sym], size := s1[name].size + IntType.size);
    assert ScopeSound(s1[name]);
    DistinctAfterAppend(s1[name].chain, sym);
    UpdateKeepsSound(s1, name, nameScope);
  }

  /** After a declaration the memory scope ends in the variable's slot and
      the name scope ends in the same symbol. */
  lemma DeclaredShape(s0: seq<Scope>, mem: ScopeId, name: ScopeId, id: Token)
    requires mem < |s0| && name < |s0| && mem != name
    ensures
      var d := Declared(s0, mem, name, id);
      && |d[mem].chain| > 0
      && var memSym := d[mem].chain[|d[mem].chain| - 1];
      && memSym == Symbol(VarSymbol, id, IntType, s0[mem].size)
      && d[name].chain == s0[name].chain + [memSym]
      && d[name].size == s0[name].size + IntType.size
      && forall s :: 0 <= s < |s0| && s != mem && s != name ==> d[s] == s0[s]
  {
  }

  // ---------------------------------------------------------------------
  // Which statements the analysis accepts, and the table it leaves
  // ---------------------------------------------------------------------

  /** No scope of `s0` is lost or changes kind in `s1`. */
  ghost predicate KindsKept(s0: seq<Scope>, s1: seq<Scope>) {
    |s0| <= |s1| && forall s :: 0 <= s < |s0| ==> s1[s].kind == s0[s].kind
  }

  /** The table after the int literals of expression `e` are pooled, left
      to right: a literal takes the next slot of the memory scope unless an
      equal one already has a slot. */
  ghost function Pool(scopes: seq<Scope>, mem: ScopeId, e: Node): (r: seq<Scope>)
    requires ScopesOk(scopes) && mem < |scopes| && TokensOk(e)
    ensures ScopesOk(r) && |r| == |scopes| && KindsKept(scopes, r)
    decreases e
  {
    match e.kind
    case LiteralExpr(t) =>
      if t.kind == IntLiteral && FindLiteral(scopes[mem].chain, t, IntType).None? then
        scopes[mem := Appended(scopes[mem], Symbol(LiteralSymbol, t, IntType, scopes[mem].size), IntType.size)]
      else
        scopes
    case BinaryExpr(l, _, r) => Pool(Pool(scopes, mem, l), mem, r)
    case _ => scopes
  }

  /** Pooling keeps the analyzer's invariant and only adds literals. */
  lemma {:induction false} PoolKeepsInv(scopes: seq<Scope>, mem: ScopeId, e: Node)
    requires AnalyzerInv(scopes, mem) && TokensOk(e)
    ensures AnalyzerInv(Pool(scopes, mem, e), mem) && LiteralsAdded(scopes, Pool(scopes, mem, e), mem)
    decreases e
  {
    match e.kind
    case LiteralExpr(t) =>
      assert ScopeSound(scopes[mem]);
      if t.kind == IntLiteral && FindLiteral(scopes[mem].chain, t, IntType).None? {
        LiteralInserted(scopes, Pool(scopes, mem, e), mem, t);
      } else {
        LiteralsAddedRefl(scopes, mem);
      }
    case BinaryExpr(l, _, r) =>
      var s1 := Pool(scopes, mem, l);
      PoolKeepsInv(scopes, mem, l);
      PoolKeepsInv(s1, mem, r);
      LiteralsAddedTrans(scopes, s1, Pool(s1, mem, r), mem);
    case _ =>
      LiteralsAddedRefl(scopes, mem);
  }

  /** Declaring a variable keeps every token well formed and every scope's
      kind. */
  lemma DeclaredOk(s0: seq<Scope>, mem: ScopeId, name: ScopeId, id: Token)
    requires ScopesOk(s0) && mem < |s0| && name < |s0| && WellFormed(id)
    ensures ScopesOk(Declared(s0, mem, name, id)) && KindsKept(s0, Declared(s0, mem, name, id))
  {
    var sym := Symbol(VarSymbol, id, IntType, s0[mem].size);
    var s1 := WithSlot(s0, mem, sym);
    assert s1[mem].chain == s0[mem].chain + [sym];
    var s2 := WithName(s1, name, sym);
    assert s2[name].chain == s1[name].chain + [sym];
  }

  /** The outcome of analysing statement `s` in name scope `name`: the
      error it stops on, or the table it leaves. An expression statement
      fails as its expression does. A declaration fails when its name is
      already declared in this very name scope, and then as its initializer
      does; otherwise the initializer's literals are pooled and the variable
      declared. A block opens a fresh name scope under `name`. */
  ghost function StmtEffect(scopes: seq<Scope>, mem: ScopeId, name: ScopeId, s: Node): (r: Result<seq<Scope>>)
    requires ScopesOk(scopes) && mem < |scopes| && IsNameScope(scopes, name) && TokensOk(s)
    ensures r.Ok? ==> ScopesOk(r.value) && KindsKept(scopes, r.value)
    decreases s
  {
    match s.kind
    case ExprStmt(e, _) =>
      if ExprCheck(scopes, name, e).Some? then Err(ExprCheck(scopes, name, e).value)
      else Ok(Pool(scopes, mem, e))
    case VarStmt(_, id, init, _) =>
      if FindVar(scopes[name].chain, id).Some? then Err(DuplicateDeclaration(id.start, id.end))
      else if init.Some? && ExprCheck(scopes, name, init.value).Some? then Err(ExprCheck(scopes, name, init.value).value)
      else
        var s1 := if init.Some? then Pool(scopes, mem, init.value) else scopes;
        DeclaredOk(s1, mem, name, id);
        Ok(Declared(s1, mem, name, id))
    case BlockStmt(ss) =>
      StmtsEffect(scopes + [Scope(NameScope, Some(name), 0, [])], mem, |scopes|, ss)
    case _ => Err(UnknownStatementKind)
  }

  /** The outcome of analysing statements `ss` in order in name scope
      `name`: the first error, or the table after the last one. */
  ghost function StmtsEffect(scopes: seq<Scope>, mem: ScopeId, name: ScopeId, ss: seq<Node>): (r: Result<seq<Scope>>)
    requires ScopesOk(scopes) && mem < |scopes| && IsNameScope(scopes, name)
    requires forall i :: 0 <= i < |ss| ==> TokensOk(ss[i])
    ensures r.Ok? ==> ScopesOk(r.value) && KindsKept(scopes, r.value)
    decreases ss
  {
    if |ss| == 0 then Ok(scopes)
    else
      var s1 :- StmtEffect(scopes, mem, name, ss[0]);
      StmtsEffect(s1, mem, name, ss[1..])
  }

  /** A statement the analysis accepts keeps the analyzer's invariant, and
      keeps every scope's kind, parent and symbols. */
  lemma {:induction false} StmtEffectKeepsInv(scopes: seq<Scope>, mem: ScopeId, name: ScopeId, s: Node)
    requires AnalyzerInv(scopes, mem) && IsNameScope(scopes, name) && TokensOk(s)
    ensures StmtEffect(scopes, mem, name, s).Ok? ==>
      AnalyzerInv(StmtEffect(scopes, mem, name, s).value, mem) && Kept(scopes, StmtEffect(scopes, mem, name, s).value)
    decreases s
  {
    match s.kind
    case ExprStmt(e, _) =>
      PoolKeepsInv(scopes, mem, e);
      LiteralsAddedNamesKept(scopes, Pool(scopes, mem, e), mem);
    case VarStmt(_, id, init, _) =>
      if FindVar(scopes[name].chain, id).None? && !(init.Some? && ExprCheck(scopes, name, init.value).Some?) {
        var s1 := if init.Some? then Pool(scopes, mem, init.value) else scopes;
        if init.Some? {
          PoolKeepsInv(scopes, mem, init.value);
        } else {
          LiteralsAddedRefl(scopes, mem);
        }
        LiteralsAddedNamesKept(scopes, s1, mem);
        VarInserted(s1, mem, name, id);
        KeptTrans(scopes, s1, Declared(s1, mem, name, id));
      }
    case BlockStmt(ss) =>
      var s1 := scopes + [Scope(NameScope, Some(name), 0, [])];
      assert AllSound(s1) by { assert ScopeSound(s1[|scopes|]); }
      StmtsEffectKeepsInv(s1, mem, |scopes|, ss);
      var r := StmtsEffect(s1, mem, |scopes|, ss);
      if r.Ok? {
        KeptTrans(scopes, s1, r.value);
      }
    case _ =>
  }

  lemma {:induction false} StmtsEffectKeepsInv(scopes: seq<Scope>, mem: ScopeId, name: ScopeId, ss: seq<Node>)
    requires AnalyzerInv(scopes, mem) && IsNameScope(scopes, name)
    requires forall i :: 0 <= i < |ss| ==> TokensOk(ss[i])
    ensures StmtsEffect(scopes, mem, name, ss).Ok? ==>
      AnalyzerInv(StmtsEffect(scopes, mem, name, ss).value, mem) && Kept(scopes, StmtsEffect(scopes, mem, name, ss).value)
    decreases ss
  {
    if |ss| > 0 {
      StmtEffectKeepsInv(scopes, mem, name, ss[0]);
      var first := StmtEffect(scopes, mem, name, ss[0]);
      if first.Ok? {
        StmtsEffectKeepsInv(first.value, mem, name, ss[1..]);
        var r := StmtsEffect(first.value, mem, name, ss[1..]);
        if r.Ok? {
          KeptTrans(scopes, first.value, r.value);
        }
      }
    }
  }

  /** What `StmtEffect` says of a declaration: a name declared in this
      very scope is rejected; otherwise the initializer decides; a
      declaration that passes pools the initializer's literals and then
      declares the variable. */
  lemma VarStmtEffect(scopes: seq<Scope>, mem: ScopeId, name: ScopeId, s: Node)
    requires ScopesOk(scopes) && mem < |scopes| && IsNameScope(scopes, name) && TokensOk(s)
    requires s.kind.VarStmt?
    ensures
      var id := s.kind.identifier;
      var init := s.kind.init;
      var r := StmtEffect(scopes, mem, name, s);
      && (r.Ok? <==> FindVar(scopes[name].chain, id).None? && (init.Some? ==> ExprCheck(scopes, name, init.value).None?))
      && (FindVar(scopes[name].chain, id).Some? ==> r == Err(DuplicateDeclaration(id.start, id.end)))
      && (FindVar(scopes[name].chain, id).None? && init.Some? && ExprCheck(scopes, name, init.value).Some? ==>
            r == Err(ExprCheck(scopes, name, init.value).value))
      && (r.Ok? && init.Some? ==> r.value == Declared(Pool(scopes, mem, init.value), mem, name, id))
      && (r.Ok? && init.None? ==> r.value == Declared(scopes, mem, name, id))
  {
  }

  /** Analysing `ss[i..]` is analysing `ss[i]`, then, if it succeeds,
      `ss[i + 1..]` in the table it leaves. */
  lemma StmtsEffectAt(scopes: seq<Scope>, mem: ScopeId, name: ScopeId, ss: seq<Node>, i: nat)
    requires ScopesOk(scopes) && mem < |scopes| && IsNameScope(scopes, name)
    requires forall k :: 0 <= k < |ss| ==> TokensOk(ss[k])
    requires i < |ss|
    ensures
      var first := StmtEffect(scopes, mem, name, ss[i]);
      && (first.Err? ==> StmtsEffect(scopes, mem, name, ss[i..]) == Err(first.error))
      && (first.Ok? ==> IsNameScope(first.value, name))
      && (first.Ok? ==> StmtsEffect(scopes, mem, name, ss[i..]) == StmtsEffect(first.value, mem, name, ss[i + 1..]))
  {
    assert ss[i..][0] == ss[i] && ss[i..][1..] == ss[i + 1..];
  }

  /** The outcome of analysing program `p` in the two given scopes. */
  ghost function ProgEffect(scopes: seq<Scope>, mem: ScopeId, name: ScopeId, p: Node): Result<seq<Scope>>
    requires ScopesOk(scopes) && mem < |scopes| && IsNameScope(scopes, name) && TokensOk(p)
  {
    if !p.kind.Prog? then Err(UnexpectedNodeKind(p.start, p.end))
    else StmtsEffect(scopes, mem, name, p.kind.asts)
  }

  /** Declaring one name twice in the same name scope is rejected: at the
      second declaration when the first one passes. */
  lemma RedeclarationRejected(scopes: seq<Scope>, mem: ScopeId, name: ScopeId, d1: Node, d2: Node)
    requires AnalyzerInv(scopes, mem) && IsNameScope(scopes, name)
    requires TokensOk(d1) && TokensOk(d2) && d1.kind.VarStmt? && d2.kind.VarStmt?
    requires Lexeme(d1.kind.identifier) == Lexeme(d2.kind.identifier)
    ensures StmtsEffect(scopes, mem, name, [d1, d2]).Err?
    ensures StmtEffect(scopes, mem, name, d1).Ok? ==>
      StmtsEffect(scopes, mem, name, [d1, d2]) == Err(DuplicateDeclaration(d2.kind.identifier.start, d2.kind.identifier.end))
  {
    assert [d1, d2][0] == d1 && [d1, d2][1..] == [d2];
    var first := StmtEffect(scopes, mem, name, d1);
    if first.Ok? {
      var s1 := if d1.kind.init.Some? then Pool(scopes, mem, d1.kind.init.value) else scopes;
      assert first.value == Declared(s1, mem, name, d1.kind.identifier);
      DeclaredShape(s1, mem, name, d1.kind.identifier);
      var c := first.value[name].chain;
      assert IsVarFor(c[|c| - 1], d2.kind.identifier);
      var dup := Err(DuplicateDeclaration(d2.kind.identifier.start, d2.kind.identifier.end));
      assert StmtEffect(first.value, mem, name, d2) == dup;
      assert [d2][0] == d2;
      assert StmtsEffect(first.value, mem, name, [d2]) == dup;
    }
  }

  /** A declaration opening a block is accepted whatever the enclosing
      scopes declare: the block's own name scope starts empty, so the
      inner variable shadows any outer one. */
  lemma ShadowingAccepted(scopes: seq<Scope>, mem: ScopeId, name: ScopeId, d: Node, b: Node)
    requires ScopesOk(scopes) && mem < |scopes| && IsNameScope(scopes, name)
    requires TokensOk(b) && b.kind == BlockStmt([d]) && d.kind.VarStmt? && d.kind.init.None?
    ensures StmtEffect(scopes, mem, name, b).Ok?
  {
    var s1 := scopes + [Scope(NameScope, Some(name), 0, [])];
    assert [d][0] == d && [d][1..] == [];
    assert TokensOk(d);
    assert FindVar(s1[|scopes|].chain, d.kind.identifier).None?;
    assert StmtEffect(s1, mem, |scopes|, d).Ok?;
    assert StmtsEffect(s1, mem, |scopes|, [d]).Ok?;
    assert StmtEffect(scopes, mem, name, b) == StmtsEffect(s1, mem, |scopes|, [d]);
  }

  /** The table `analyze` starts from: a parentless memory scope and a name
      scope under it appended to the table. */
  ghost function Booted(scopes: seq<Scope>): (r: seq<Scope>)
    requires ScopesOk(scopes) && AllSound(scopes)
    ensures AnalyzerInv(r, |scopes|) && IsNameScope(r, |scopes| + 1)
  {
    var r := scopes + [Scope(MemoryScope, None, 0, []), Scope(NameScope, Some(|scopes|), 0, [])];
    assert ScopeSound(r[|scopes|]) && ScopeSound(r[|scopes| + 1]);
    r
  }

  /** The method result `r` and table `scopes` agree with the reference
      outcome `spec`: both fail with the same error, or both succeed and
      the table is the one `spec` gives. */
  ghost predicate Agrees<T>(r: Result<T>, spec: Result<seq<Scope>>, scopes: seq<Scope>) {
    && (r.Ok? <==> spec.Ok?)
    && (r.Err? ==> r.error == spec.error)
    && (r.Ok? ==> scopes == spec.value)
  }

  // ---------------------------------------------------------------------
  // The analyzer
  // ---------------------------------------------------------------------

  /** The analyzer: the symbol table it fills and the two static globals of
      the C code, the global memory scope and the global name scope. */
  class Analyzer {
    const st: Table
    var globalMemoryScope: ScopeId
    var globalNameScope: ScopeId

    ghost predicate Ready()
      reads this, st
    {
      st.Valid() && AnalyzerInv(st.scopes, globalMemoryScope)
    }

    constructor ()
      ensures fresh(st) && st.Valid() && st.scopes == []
    {
      st := new Table();
      globalMemoryScope := 0;
      globalNameScope := 0;
    }

    /** `analyze`: creates a parentless memory scope and a name scope whose
        parent it is, then analyses the program in them. */
    method Analyze(ast: Node) returns (r: Result<Node>)
      requires st.Valid() && AllSound(st.scopes) && TokensOk(ast)
      modifies this, st
      ensures Ready()
      ensures globalMemoryScope == |old(st.scopes)| && globalNameScope == globalMemoryScope + 1
      ensures st.scopes[globalMemoryScope].kind == MemoryScope && st.scopes[globalMemoryScope].parent.None?
      ensures globalNameScope < |st.scopes| && st.scopes[globalNameScope].kind == NameScope
      ensures st.scopes[globalNameScope].parent == Some(globalMemoryScope)
      ensures Agrees(r, ProgEffect(Booted(old(st.scopes)), globalMemoryScope, globalNameScope, ast), st.scopes)
      ensures r.Ok? ==> AnnotatedProg(st.scopes, globalMemoryScope, globalNameScope, ast, r.value)
      ensures r.Err? && !ast.kind.Prog? ==> r.error == UnexpectedNodeKind(ast.start, ast.end)
    {
      ghost var booted := Booted(st.scopes);
      var m := st.CreateScope(MemoryScope, None);
      var n := st.CreateScope(NameScope, Some(m));
      assert st.scopes == booted;
      globalMemoryScope := m;
      globalNameScope := n;
      r := AnalyzeProg(m, n, ast);
    }

    /** `analyze_prog`: the root must be a program; it gets both scopes and
        its statements are analysed in order. */
    method AnalyzeProg(mem: ScopeId, name: ScopeId, ast: Node) returns (r: Result<Node>)
      requires Ready() && mem == globalMemoryScope && IsNameScope(st.scopes, name) && TokensOk(ast)
      modifies st
      ensures Ready() && Kept(old(st.scopes), st.scopes)
      ensures Agrees(r, ProgEffect(old(st.scopes), mem, name, ast), st.scopes)
      ensures r.Ok? ==> AnnotatedProg(st.scopes, mem, name, ast, r.value)
      ensures !ast.kind.Prog? ==> r == Err(UnexpectedNodeKind(ast.start, ast.end))
    {
      if !ast.kind.Prog? {
        return Err(UnexpectedNodeKind(ast.start, ast.end));
      }
      var asts := ast.kind.asts;
      ghost var spec := StmtsEffect(st.scopes, mem, name, asts);
      var out: seq<Node> := [];
      for i := 0 to |asts|
        invariant Ready() && Kept(old(st.scopes), st.scopes) && IsNameScope(st.scopes, name)
        invariant spec == StmtsEffect(st.scopes, mem, name, asts[i..])
        invariant |out| == i
        invariant forall j :: 0 <= j < i ==> AnnotatedStmt(st.scopes, mem, name, asts[j], out[j])
      {
        out :- AnalyzeItem(mem, name, asts, i, out, old(st.scopes), spec);
      }
      assert asts[|asts|..] == [];
      return Ok(ast.(kind := Prog(out), ann := ast.ann.(memoryScope := Some(mem), nameScope := Some(name))));
    }

    /** One turn of the statement loops of `analyze_prog` and
        `analyze_block_stmt`: statement `i` is analysed and its annotated
        tree appended to `out`; the statements before it keep their
        annotations in the grown table, and `spec`, the outcome of the
        statements from `i` on, becomes the outcome of those after `i`. */
    method AnalyzeItem(mem: ScopeId, name: ScopeId, stmts: seq<Node>, i: nat, out: seq<Node>,
                       ghost s0: seq<Scope>, ghost spec: Result<seq<Scope>>) returns (r: Result<seq<Node>>)
      requires Ready() && mem == globalMemoryScope && IsNameScope(st.scopes, name)
      requires forall k :: 0 <= k < |stmts| ==> TokensOk(stmts[k])
      requires i < |stmts| && |out| == i && Kept(s0, st.scopes)
      requires spec == StmtsEffect(st.scopes, mem, name, stmts[i..])
      requires forall j :: 0 <= j < i ==> AnnotatedStmt(st.scopes, mem, name, stmts[j], out[j])
      modifies st
      ensures Ready() && Kept(s0, st.scopes) && IsNameScope(st.scopes, name)
      ensures r.Err? ==> spec == Err(r.error)
      ensures r.Ok? ==> spec == StmtsEffect(st.scopes, mem, name, stmts[i + 1..])
      ensures r.Ok? ==> |r.value| == i + 1
      ensures r.Ok? ==> forall j :: 0 <= j < i + 1 ==> AnnotatedStmt(st.scopes, mem, name, stmts[j], r.value[j])
      decreases stmts[i].kind, 3
    {
      StmtsEffectAt(st.scopes, mem, name, stmts, i);
      var stmt :- AnalyzeStmt(mem, name, stmts[i]);
      forall j | 0 <= j < i
        ensures AnnotatedStmt(st.scopes, mem, name, stmts[j], out[j])
      {
        AnnotatedStmtKept(old(st.scopes), st.scopes, mem, name, stmts[j], out[j]);
      }
      KeptTrans(s0, old(st.scopes), st.scopes);
      return Ok(out + [stmt]);
    }

    /** `analyze_stmt`: stamps both scopes and dispatches on the statement
        kind; anything else is an error. */
    method AnalyzeStmt(mem: ScopeId, name: ScopeId, ast: Node) returns (r: Result<Node>)
      requires Ready() && mem == globalMemoryScope && IsNameScope(st.scopes, name) && TokensOk(ast)
      modifies st
      ensures Ready() && Kept(old(st.scopes), st.scopes)
      ensures Agrees(r, StmtEffect(old(st.scopes), mem, name, ast), st.scopes)
      ensures r.Ok? ==> AnnotatedStmt(st.scopes, mem, name, ast, r.value)
      ensures !(ast.kind.ExprStmt? || ast.kind.BlockStmt? || ast.kind.VarStmt?) ==> r == Err(UnknownStatementKind)
      decreases ast.kind, 2
    {
      var stamped := ast.(ann := ast.ann.(memoryScope := Some(mem), nameScope := Some(name)));
      match ast.kind {
        case ExprStmt(_, _) =>
          r := AnalyzeExprStmt(mem, name, stamped);
        case BlockStmt(_) =>
          r := AnalyzeBlockStmt(mem, name, stamped);
        case VarStmt(_, _, _, _) =>
          r := AnalyzeVarStmt(mem, name, stamped);
        case _ =>
          r := Err(UnknownStatementKind);
      }
    }

    /** `analyze_block_stmt`: a new name scope whose parent is the enclosing
        one; the block's statements are analysed in it, in order. */
    method AnalyzeBlockStmt(mem: ScopeId, name: ScopeId, ast: Node) returns (r: Result<Node>)
      requires Ready() && mem == globalMemoryScope && IsNameScope(st.scopes, name) && TokensOk(ast)
      requires ast.kind.BlockStmt? && ast.ann.memoryScope == Some(mem)
      modifies st
      ensures Ready() && Kept(old(st.scopes), st.scopes)
      ensures Agrees(r, StmtEffect(old(st.scopes), mem, name, ast), st.scopes)
      ensures r.Ok? ==> r.value.ann.nameScope == Some(|old(st.scopes)|)
      ensures r.Ok? ==> AnnotatedStmt(st.scopes, mem, name, ast, r.value)
      decreases ast.kind, 1
    {
      var inner := st.CreateScope(NameScope, Some(name));
      ghost var s1 := st.scopes;
      var out :- AnalyzeBlockItems(mem, inner, ast);
      KeptTrans(old(st.scopes), s1, st.scopes);
      return Ok(ast.(kind := BlockStmt(out), ann := ast.ann.(nameScope := Some(inner))));
    }

    /** The loop of `analyze_block_stmt`: the statements of the block, in
        order, each in the block's own name scope. */
    method AnalyzeBlockItems(mem: ScopeId, inner: ScopeId, ast: Node) returns (r: Result<seq<Node>>)
      requires Ready() && mem == globalMemoryScope && IsNameScope(st.scopes, inner) && TokensOk(ast)
      requires ast.kind.BlockStmt?
      modifies st
      ensures Ready() && Kept(old(st.scopes), st.scopes)
      ensures Agrees(r, StmtsEffect(old(st.scopes), mem, inner, ast.kind.stmts), st.scopes)
      ensures r.Ok? ==> |r.value| == |ast.kind.stmts|
      ensures r.Ok? ==> forall j :: 0 <= j < |r.value| ==> AnnotatedStmt(st.scopes, mem, inner, ast.kind.stmts[j], r.value[j])
      decreases ast.kind, 0
    {
      var stmts := ast.kind.stmts;
      ghost var spec := StmtsEffect(st.scopes, mem, inner, stmts);
      var out: seq<Node> := [];
      for i := 0 to |stmts|
        invariant Ready() && Kept(old(st.scopes), st.scopes) && IsNameScope(st.scopes, inner)
        invariant spec == StmtsEffect(st.scopes, mem, inner, stmts[i..])
        invariant |out| == i
        invariant forall j :: 0 <= j < i ==> AnnotatedStmt(st.scopes, mem, inner, stmts[j], out[j])
      {
        out :- AnalyzeItem(mem, inner, stmts, i, out, old(st.scopes), spec);
      }
      assert stmts[|stmts|..] == [];
      return Ok(out);
    }

    /** `analyze_var_stmt`: a name already declared in this name scope is an
        error (one declared further out is shadowed); the initializer, if
        any, is analysed before the declaration and gives the variable its
        type, which is int otherwise. The variable is declared in the memory
        scope and in the name scope, and the name-scope symbol takes the
        memory-scope offset. The statement's own data type is not set. */
    method AnalyzeVarStmt(mem: ScopeId, name: ScopeId, ast: Node) returns (r: Result<Node>)
      requires Ready() && mem == globalMemoryScope && IsNameScope(st.scopes, name) && TokensOk(ast)
      requires ast.kind.VarStmt? && ast.ann.memoryScope == Some(mem) && ast.ann.nameScope == Some(name)
      modifies st
      ensures Ready() && Kept(old(st.scopes), st.scopes)
      ensures Agrees(r, StmtEffect(old(st.scopes), mem, name, ast), st.scopes)
      ensures FindVar(old(st.scopes[name].chain), ast.kind.identifier).Some? ==>
        r == Err(DuplicateDeclaration(ast.kind.identifier.start, ast.kind.identifier.end))
      ensures r.Ok? <==>
        && FindVar(old(st.scopes[name].chain), ast.kind.identifier).None?
        && (ast.kind.init.Some? ==> ExprCheck(old(st.scopes), name, ast.kind.init.value).None?)
      ensures
        && FindVar(old(st.scopes[name].chain), ast.kind.identifier).None?
        && ast.kind.init.Some? && ExprCheck(old(st.scopes), name, ast.kind.init.value).Some? ==>
        r == Err(ExprCheck(old(st.scopes), name, ast.kind.init.value).value)
      ensures r.Ok? ==> AnnotatedStmt(st.scopes, mem, name, ast, r.value)
      ensures r.Ok? ==>
        && |st.scopes[mem].chain| > 0
        && var memSym := st.scopes[mem].chain[|st.scopes[mem].chain| - 1];
        && memSym.kind == VarSymbol && memSym.token == ast.kind.identifier && memSym.dataType == IntType
        && st.scopes[name].chain == old(st.scopes[name].chain) + [memSym]
        && st.scopes[name].size == old(st.scopes[name].size) + IntType.size
      decreases ast.kind, 0
    {
      VarStmtEffect(st.scopes, mem, name, ast);
      var id := ast.kind.identifier;
      var dup := st.CheckVar(Some(name), id);
      if dup.Some? {
        return Err(DuplicateDeclaration(id.start, id.end));
      }
      r := AnalyzeFreshVar(mem, name, ast);
    }

    /** The steps of `analyze_var_stmt` after the duplicate check: the
        initializer, if any, is analysed, then the variable declared. */
    method AnalyzeFreshVar(mem: ScopeId, name: ScopeId, ast: Node) returns (r: Result<Node>)
      requires Ready() && mem == globalMemoryScope && IsNameScope(st.scopes, name) && TokensOk(ast)
      requires ast.kind.VarStmt? && ast.ann.memoryScope == Some(mem) && ast.ann.nameScope == Some(name)
      requires FindVar(st.scopes[name].chain, ast.kind.identifier).None?
      modifies st
      ensures Ready() && Kept(old(st.scopes), st.scopes)
      ensures r.Ok? <==> (ast.kind.init.Some? ==> ExprCheck(old(st.scopes), name, ast.kind.init.value).None?)
      ensures r.Err? ==> ast.kind.init.Some? && r.error == ExprCheck(old(st.scopes), name, ast.kind.init.value).value
      ensures r.Ok? && ast.kind.init.Some? ==>
        st.scopes == Declared(Pool(old(st.scopes), mem, ast.kind.init.value), mem, name, ast.kind.identifier)
      ensures r.Ok? && ast.kind.init.None? ==> st.scopes == Declared(old(st.scopes), mem, name, ast.kind.identifier)
      ensures r.Ok? ==> AnnotatedStmt(st.scopes, mem, name, ast, r.value)
      ensures r.Ok? ==>
        && |st.scopes[mem].chain| > 0
        && var memSym := st.scopes[mem].chain[|st.scopes[mem].chain| - 1];
        && memSym.kind == VarSymbol && memSym.token == ast.kind.identifier && memSym.dataType == IntType
        && st.scopes[name].chain == old(st.scopes[name].chain) + [memSym]
        && st.scopes[name].size == old(st.scopes[name].size) + IntType.size
    {
      var id := ast.kind.identifier;
      var init :- AnalyzeInitializer(mem, name, ast.kind.init);
      var dataType := if init.Some? then init.value.ann.dataType.value else IntType;
      ghost var s1 := st.scopes;
      LiteralsAddedNamesKept(old(st.scopes), s1, mem);
      assert s1[name] == old(st.scopes[name]);
      Declare(mem, name, id, dataType);
      VarInserted(s1, mem, name, id);
      DeclaredShape(s1, mem, name, id);
      KeptTrans(old(st.scopes), s1, st.scopes);
      return Ok(ast.(kind := VarStmt(ast.kind.varKeyword, id, init, ast.kind.semicolon)));
    }

    /** The initializer step of `analyze_var_stmt`: the expression, if
        any, is analysed before the variable is declared. */
    method AnalyzeInitializer(mem: ScopeId, name: ScopeId, init: Option<Node>) returns (r: Result<Option<Node>>)
      requires Ready() && mem == globalMemoryScope && IsNameScope(st.scopes, name)
      requires init.Some? ==> TokensOk(init.value)
      modifies st
      ensures Ready() && LiteralsAdded(old(st.scopes), st.scopes, mem)
      ensures init.None? ==> r == Ok(None) && st.scopes == old(st.scopes)
      ensures init.Some? ==> (r.Ok? <==> ExprCheck(old(st.scopes), name, init.value).None?)
      ensures init.Some? && r.Err? ==> r.error == ExprCheck(old(st.scopes), name, init.value).value
      ensures init.Some? && r.Ok? ==> st.scopes == Pool(old(st.scopes), mem, init.value)
      ensures r.Ok? && init.Some? ==> r.value.Some? && AnnotatedExpr(mem, name, init.value, r.value.value)
      decreases init, 2
    {
      if init.None? {
        return Ok(None);
      }
      var e :- AnalyzeExpr(mem, name, init.value);
      return Ok(Some(e));
    }

    /** The declaring steps of `analyze_var_stmt`: the variable goes into
        the memory scope, then into the name scope, and the name-scope
        symbol takes the memory-scope offset. */
    method Declare(mem: ScopeId, name: ScopeId, id: Token, dataType: Type)
      requires st.Valid() && mem < |st.scopes| && name < |st.scopes| && mem != name && WellFormed(id)
      requires dataType == IntType
      modifies st
      ensures st.Valid() && st.scopes == Declared(old(st.scopes), mem, name, id)
    {
      var memOffset := st.CreateVar(mem, id, dataType);
      ghost var s1 := st.scopes;
      var _ := st.CreateVar(name, id, dataType);
      st.SetOffset(name, |st.scopes[name].chain| - 1, memOffset);
      ghost var sym := Symbol(VarSymbol, id, IntType, memOffset);
      assert st.scopes[name].chain == s1[name].chain + [sym];
    }

    /** `analyze_expr_stmt`. */
    method AnalyzeExprStmt(mem: ScopeId, name: ScopeId, ast: Node) returns (r: Result<Node>)
      requires Ready() && mem == globalMemoryScope && IsNameScope(st.scopes, name) && TokensOk(ast)
      requires ast.kind.ExprStmt? && ast.ann.memoryScope == Some(mem) && ast.ann.nameScope == Some(name)
      modifies st
      ensures Ready() && LiteralsAdded(old(st.scopes), st.scopes, mem)
      ensures r.Ok? <==> ExprCheck(old(st.scopes), name, ast.kind.expr).None?
      ensures r.Err? ==> r.error == ExprCheck(old(st.scopes), name, ast.kind.expr).value
      ensures r.Ok? ==> st.scopes == Pool(old(st.scopes), mem, ast.kind.expr)
      ensures r.Ok? ==> AnnotatedStmt(st.scopes, mem, name, ast, r.value)
      decreases ast.kind, 0
    {
      var e :- AnalyzeExpr(mem, name, ast.kind.expr);
      return Ok(ast.(kind := ExprStmt(e, ast.kind.semicolon)));
    }

    /** `analyze_expr`: stamps both scopes and dispatches on the expression
        kind; anything else is an error. */
    method AnalyzeExpr(mem: ScopeId, name: ScopeId, ast: Node) returns (r: Result<Node>)
      requires Ready() && mem == globalMemoryScope && IsNameScope(st.scopes, name) && TokensOk(ast)
      modifies st
      ensures Ready() && LiteralsAdded(old(st.scopes), st.scopes, mem)
      ensures r.Ok? <==> ExprCheck(old(st.scopes), name, ast).None?
      ensures r.Err? ==> r.error == ExprCheck(old(st.scopes), name, ast).value
      ensures r.Ok? ==> st.scopes == Pool(old(st.scopes), mem, ast)
      ensures r.Ok? ==> AnnotatedExpr(mem, name, ast, r.value)
      ensures r.Ok? ==> ResolvedTypes(st.scopes, name, r.value)
      ensures r.Ok? ==> LiteralsStored(st.scopes[mem].chain, r.value)
      decreases ast.kind, 1
    {
      var stamped := ast.(ann := ast.ann.(memoryScope := Some(mem), nameScope := Some(name)));
      match ast.kind {
        case BinaryExpr(_, _, _) =>
          r := AnalyzeBinary(mem, name, stamped);
        case LiteralExpr(_) =>
          r := AnalyzeLiteral(mem, name, stamped);
        case IdentifierExpr(_) =>
          r := AnalyzeIdentifier(mem, name, stamped);
        case _ =>
          r := Err(UnknownExpressionKind);
      }
    }

    /** `analyze_binary`: both operands, left first; the node takes the left
        operand's type. The C code's check for an untyped operand cannot
        fail, since every analysed expression is typed. */
    method AnalyzeBinary(mem: ScopeId, name: ScopeId, ast: Node) returns (r: Result<Node>)
      requires Ready() && mem == globalMemoryScope && IsNameScope(st.scopes, name) && TokensOk(ast)
      requires ast.kind.BinaryExpr? && ast.ann.memoryScope == Some(mem) && ast.ann.nameScope == Some(name)
      modifies st
      ensures Ready() && LiteralsAdded(old(st.scopes), st.scopes, mem)
      ensures r.Ok? <==> ExprCheck(old(st.scopes), name, ast).None?
      ensures r.Err? ==> r.error == ExprCheck(old(st.scopes), name, ast).value
      ensures r.Ok? ==> st.scopes == Pool(old(st.scopes), mem, ast)
      ensures r.Ok? ==> AnnotatedExpr(mem, name, ast, r.value)
      ensures r.Ok? ==> ResolvedTypes(st.scopes, name, r.value)
      ensures r.Ok? ==> LiteralsStored(st.scopes[mem].chain, r.value)
      decreases ast.kind, 0
    {
      ghost var s0 := st.scopes;
      var left :- AnalyzeExpr(mem, name, ast.kind.left);
      ghost var s1 := st.scopes;
      LiteralsAddedNamesKept(s0, s1, mem);
      ExprCheckFrame(s0, s1, name, ast.kind.right);
      assert IsNameScope(s1, name);
      var right := AnalyzeExpr(mem, name, ast.kind.right);
      LiteralsAddedTrans(s0, s1, st.scopes, mem);
      if right.Err? {
        return Err(right.error);
      }
      assert left.ann.dataType.Some? && right.value.ann.dataType.Some?;
      LiteralsAddedNamesKept(s1, st.scopes, mem);
      ResolvedTypesFrame(s1, st.scopes, name, left);
      assert ChainTokensOk(s1[mem].chain) && ChainTokensOk(st.scopes[mem].chain);
      LiteralsStoredGrown(s1[mem].chain, st.scopes[mem].chain, left);
      return Ok(ast.(kind := BinaryExpr(left, ast.kind.op, right.value), ann := ast.ann.(dataType := left.ann.dataType)));
    }

    /** `analyze_literal`: an int literal is an int; it gets a slot in the
        global memory scope unless a literal with the same text and type
        already has one. */
    method AnalyzeLiteral(mem: ScopeId, name: ScopeId, ast: Node) returns (r: Result<Node>)
      requires Ready() && mem == globalMemoryScope && IsNameScope(st.scopes, name) && TokensOk(ast)
      requires ast.kind.LiteralExpr? && ast.ann.memoryScope == Some(mem) && ast.ann.nameScope == Some(name)
      modifies st
      ensures Ready() && LiteralsAdded(old(st.scopes), st.scopes, mem)
      ensures r.Ok? <==> ast.kind.token.kind == IntLiteral
      ensures r.Err? ==> r.error == UnknownLiteralKind
      ensures r.Ok? ==> st.scopes == Pool(old(st.scopes), mem, ast)
      ensures r.Ok? ==> r.value == ast.(ann := ast.ann.(dataType := Some(IntType)))
      ensures r.Ok? ==> FindLiteral(st.scopes[mem].chain, ast.kind.token, IntType).Some?
      ensures r.Ok? && FindLiteral(old(st.scopes[mem].chain), ast.kind.token, IntType).Some? ==>
        st.scopes == old(st.scopes)
      ensures r.Ok? && FindLiteral(old(st.scopes[mem].chain), ast.kind.token, IntType).None? ==>
        st.scopes[mem].chain == old(st.scopes[mem].chain) + [Symbol(LiteralSymbol, ast.kind.token, IntType, old(st.scopes[mem].size))]
    {
      var token := ast.kind.token;
      if token.kind != IntLiteral {
        LiteralsAddedRefl(st.scopes, mem);
        return Err(UnknownLiteralKind);
      }
      var dataType := IntType;
      var found := st.CheckLiteral(Some(globalMemoryScope), token, dataType);
      if found.None? {
        InsertLiteral(mem, token);
      } else {
        LiteralsAddedRefl(st.scopes, mem);
      }
      return Ok(ast.(ann := ast.ann.(dataType := Some(dataType))));
    }

    /** The `st_create_literal` step of `analyze_literal`: a literal not yet
        pooled takes the next slot of the memory scope. */
    method InsertLiteral(mem: ScopeId, token: Token)
      requires Ready() && mem == globalMemoryScope && WellFormed(token)
      requires FindLiteral(st.scopes[mem].chain, token, IntType).None?
      modifies st
      ensures Ready() && LiteralsAdded(old(st.scopes), st.scopes, mem)
      ensures st.scopes == old(st.scopes)[mem := Appended(old(st.scopes[mem]), Symbol(LiteralSymbol, token, IntType, old(st.scopes[mem].size)), IntType.size)]
      ensures st.scopes[mem].chain == old(st.scopes[mem].chain) + [Symbol(LiteralSymbol, token, IntType, old(st.scopes[mem].size))]
      ensures FindLiteral(st.scopes[mem].chain, token, IntType).Some?
    {
      ghost var s0 := st.scopes;
      var _ := st.CreateLiteral(globalMemoryScope, token, IntType);
      LiteralInserted(s0, st.scopes, mem, token);
    }

    /** `analyze_identifier`: walks from the current name scope outwards
        through the parents, looking only at name scopes; the first
        variable found gives its type. Reaching the root is an error. */
    method AnalyzeIdentifier(mem: ScopeId, name: ScopeId, ast: Node) returns (r: Result<Node>)
      requires st.Valid() && IsNameScope(st.scopes, name) && TokensOk(ast)
      requires ast.kind.IdentifierExpr? && ast.ann.memoryScope == Some(mem) && ast.ann.nameScope == Some(name)
      ensures r.Ok? <==> Resolve(st.scopes, Some(name), ast.kind.token).Some?
      ensures r.Err? ==> r.error == UnresolvedName(ast.start, ast.end)
      ensures r.Ok? ==>
        var res := Resolve(st.scopes, Some(name), ast.kind.token).value;
        r.value == ast.(ann := ast.ann.(dataType := Some(st.scopes[res.0].chain[res.1].dataType)))
    {
      var token := ast.kind.token;
      ghost var scopes := st.scopes;
      ghost var anc := Ancestors(scopes, Some(name));
      ghost var i := 0;
      var cur: Option<ScopeId> := Some(name);
      while cur.Some?
        invariant cur.Some? ==> cur.value < |scopes|
        invariant 0 <= i <= |anc| && Ancestors(scopes, cur) == anc[i..]
        invariant forall j :: 0 <= j < i ==> !Declares(scopes, anc[j], token)
        decreases if cur.Some? then cur.value + 1 else 0
      {
        var scope := st.scopes[cur.value];
        AncestorsStep(scopes, cur.value, anc, i);
        if scope.kind == NameScope {
          var found := st.CheckVar(cur, token);
          if found.Some? {
            NearestAt(scopes, anc, token, i);
            return Ok(ast.(ann := ast.ann.(dataType := Some(st.scopes[cur.value].chain[found.value].dataType))));
          }
        }
        assert !Declares(scopes, anc[i], token);
        i := i + 1;
        cur := scope.parent;
      }
      return Err(UnresolvedName(ast.start, ast.end));
    }
  }
}
