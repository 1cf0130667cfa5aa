/** The symbol table (src/st.c). Scopes live in an arena addressed by
    `ScopeId`; each scope header carries its kind, its parent, a running byte
    size and its chain of symbols in declaration order. */
module Symbols {
  import opened Common
  import opened Tokens
  import opened Types

  /** Index of a scope in the table's arena (a `st_t *` scope pointer). */
  type ScopeId = nat

  datatype ScopeKind = MemoryScope | NameScope

  datatype SymbolKind = LiteralSymbol | VarSymbol

  /** A literal or variable symbol: its defining token, its type and its
      byte offset in the memory scope. */
  datatype Symbol = Symbol(kind: SymbolKind, token: Token, dataType: Type, offset: int)

  /** A scope header and the chain of symbols linked behind it. */
  datatype Scope = Scope(kind: ScopeKind, parent: Option<ScopeId>, size: int, chain: seq<Symbol>)

  ghost predicate ChainTokensOk(chain: seq<Symbol>) {
    forall k :: 0 <= k < |chain| ==> WellFormed(chain[k].token)
  }

  // ---------------------------------------------------------------------
  // The two lookups, as specifications
  // ---------------------------------------------------------------------

  /** `sym` is a literal of type `ty` spelled like `token`. */
  predicate IsLiteralFor(sym: Symbol, token: Token, ty: Type)
    requires WellFormed(sym.token) && WellFormed(token)
  {
    sym.kind == LiteralSymbol && sym.dataType == ty && Lexeme(sym.token) == Lexeme(token)
  }

  /** `sym` is a variable spelled like `token`. */
  predicate IsVarFor(sym: Symbol, token: Token)
    requires WellFormed(sym.token) && WellFormed(token)
  {
    sym.kind == VarSymbol && Lexeme(sym.token) == Lexeme(token)
  }

  /** Position of the first literal in `chain` matching `token` and `ty`. */
  function FindLiteral(chain: seq<Symbol>, token: Token, ty: Type): (r: Option<nat>)
    requires ChainTokensOk(chain) && WellFormed(token)
    ensures r.Some? ==> r.value < |chain| && IsLiteralFor(chain[r.value], token, ty)
    ensures r.Some? ==> forall j :: 0 <= j < r.value ==> !IsLiteralFor(chain[j], token, ty)
    ensures r.None? <==> forall j :: 0 <= j < |chain| ==> !IsLiteralFor(chain[j], token, ty)
  {
    if |chain| == 0 then None
    else if IsLiteralFor(chain[0], token, ty) then Some(0)
    else
      match FindLiteral(chain[1..], token, ty)
      case None => None
      case Some(k) => Some(k + 1)
  }

  /** Position of the first variable in `chain` spelled like `token`. */
  function FindVar(chain: seq<Symbol>, token: Token): (r: Option<nat>)
    requires ChainTokensOk(chain) && WellFormed(token)
    ensures r.Some? ==> r.value < |chain| && IsVarFor(chain[r.value], token)
    ensures r.Some? ==> forall j :: 0 <= j < r.value ==> !IsVarFor(chain[j], token)
    ensures r.None? <==> forall j :: 0 <= j < |chain| ==> !IsVarFor(chain[j], token)
  {
    if |chain| == 0 then None
    else if IsVarFor(chain[0], token) then Some(0)
    else
      match FindVar(chain[1..], token)
      case None => None
      case Some(k) => Some(k + 1)
  }

  // ---------------------------------------------------------------------
  // Storage layout of a scope
  // ---------------------------------------------------------------------

  /** Total size of the symbols of `chain`. */
  function SizeSum(chain: seq<Symbol>): int {
    if |chain| == 0 then 0
    else SizeSum(chain[..|chain| - 1]) + chain[|chain| - 1].dataType.size
  }

  /** The layout `st_scope_append` builds: every symbol sits at the sum of
      the sizes declared before it, and the scope size is the sum of all. */
  ghost predicate WellLaid(s: Scope) {
    && s.size == SizeSum(s.chain)
    && forall k :: 0 <= k < |s.chain| ==> s.chain[k].offset == SizeSum(s.chain[..k])
  }

  ghost predicate PositiveSizes(chain: seq<Symbol>) {
    forall k :: 0 <= k < |chain| ==> chain[k].dataType.size > 0
  }

  /** The scope after `st_scope_append`: `sym` linked at the tail with the old
      size as its offset, and the size grown by `size`. */
  function Appended(s: Scope, sym: Symbol, size: int): Scope {
    s.(chain := s.chain + [sym.(offset := s.size)], size := s.size + size)
  }

  /** Appending a symbol with its own type size keeps the layout. */
  lemma AppendKeepsLayout(s: Scope, sym: Symbol)
    requires WellLaid(s)
    ensures WellLaid(Appended(s, sym, sym.dataType.size))
  {
    var s' := Appended(s, sym, sym.dataType.size);
    assert s'.chain[..|s.chain|] == s.chain;
    forall k | 0 <= k < |s'.chain|
      ensures s'.chain[k].offset == SizeSum(s'.chain[..k])
    {
      if k < |s.chain| {
        assert s'.chain[..k] == s.chain[..k];
      }
    }
  }

  lemma {:induction false} SizeSumMonotone(chain: seq<Symbol>, a: int, b: int)
    requires PositiveSizes(chain)
    requires 0 <= a <= b <= |chain|
    ensures SizeSum(chain[..a]) <= SizeSum(chain[..b])
    ensures a < b ==> SizeSum(chain[..a]) < SizeSum(chain[..b])
    decreases b - a
  {
    if a < b {
      SizeSumMonotone(chain, a, b - 1);
      assert chain[..b][..b - 1] == chain[..b - 1];
    }
  }

  /** In a well-laid scope, an earlier symbol ends no later than a later one
      starts: offsets strictly increase and slots do not overlap. */
  lemma LayoutDisjoint(s: Scope, i: int, j: int)
    requires WellLaid(s) && PositiveSizes(s.chain)
    requires 0 <= i < j < |s.chain|
    ensures s.chain[i].offset + s.chain[i].dataType.size <= s.chain[j].offset
    ensures s.chain[i].offset < s.chain[j].offset
  {
    SizeSumMonotone(s.chain, i + 1, j);
    assert s.chain[..i + 1][..i] == s.chain[..i];
  }

  /** In a well-laid scope every slot lies inside `[0, size)`. */
  lemma LayoutWithin(s: Scope, i: int)
    requires WellLaid(s) && PositiveSizes(s.chain)
    requires 0 <= i < |s.chain|
    ensures 0 <= s.chain[i].offset
    ensures s.chain[i].offset + s.chain[i].dataType.size <= s.size
  {
    SizeSumMonotone(s.chain, 0, i);
    SizeSumMonotone(s.chain, i + 1, |s.chain|);
    assert s.chain[..i + 1][..i] == s.chain[..i];
    assert s.chain[..|s.chain|] == s.chain;
  }

  // ---------------------------------------------------------------------
  // Literal pooling
  // ---------------------------------------------------------------------

  /** No two literals of `chain` have the same text and type. */
  ghost predicate LiteralsPooled(chain: seq<Symbol>)
    requires ChainTokensOk(chain)
  {
    forall i, j :: 0 <= i < j < |chain| && chain[i].kind == LiteralSymbol ==>
      !IsLiteralFor(chain[j], chain[i].token, chain[i].dataType)
  }

  /** Appending a literal that was not found, or any variable, keeps the
      literals of a chain pooled. */
  lemma PooledAfterAppend(chain: seq<Symbol>, sym: Symbol)
    requires ChainTokensOk(chain) && WellFormed(sym.token) && LiteralsPooled(chain)
    requires sym.kind == LiteralSymbol ==> FindLiteral(chain, sym.token, sym.dataType).None?
    ensures ChainTokensOk(chain + [sym]) && LiteralsPooled(chain + [sym])
  {
    var c := chain + [sym];
    forall i, j | 0 <= i < j < |c| && c[i].kind == LiteralSymbol
      ensures !IsLiteralFor(c[j], c[i].token, c[i].dataType)
    {
      if j == |chain| && sym.kind == LiteralSymbol {
        assert !IsLiteralFor(chain[i], sym.token, sym.dataType);
      }
    }
  }

  /** In a pooled chain, a literal symbol with the text and type of `token`
      is exactly the one the lookup finds: equal literals share one slot. */
  lemma PooledLiteralIsFound(chain: seq<Symbol>, token: Token, ty: Type, i: int)
    requires ChainTokensOk(chain) && WellFormed(token) && LiteralsPooled(chain)
    requires 0 <= i < |chain| && IsLiteralFor(chain[i], token, ty)
    ensures FindLiteral(chain, token, ty) == Some(i)
  {
  }

  // ---------------------------------------------------------------------
  // Token comparison
  // ---------------------------------------------------------------------

  /** `is_token_equal`: compares the two tokens' texts. */
  method IsTokenEqual(left: Token, right: Token) returns (same: bool)
    requires WellFormed(left) && WellFormed(right)
    ensures same <==> Lexeme(left) == Lexeme(right)
  {
    var curLex := TokenLexical(left);
    var tokenLex := TokenLexical(right);
    same := curLex == tokenLex;
  }

  // ---------------------------------------------------------------------
  // The table
  // ---------------------------------------------------------------------

  /** Every scope's parent was created before it, and every symbol's token
      points into its source. */
  ghost predicate ScopesOk(scopes: seq<Scope>) {
    forall id :: 0 <= id < |scopes| ==>
      && (scopes[id].parent.Some? ==> scopes[id].parent.value < id)
      && ChainTokensOk(scopes[id].chain)
  }

  /** The arena of every scope and symbol node the analyzer allocates. */
  class Table {
    var scopes: seq<Scope>

    ghost predicate Valid()
      reads this
    {
      ScopesOk(scopes)
    }

    constructor ()
      ensures Valid() && scopes == []
    {
      scopes := [];
    }

    /** `st_create_scope`: a new header with the given kind and parent, size
        0 and no symbols. */
    method CreateScope(kind: ScopeKind, parent: Option<ScopeId>) returns (id: ScopeId)
      requires Valid()
      requires parent.Some? ==> parent.value < |scopes|
      modifies this
      ensures Valid()
      ensures id == |old(scopes)|
      ensures scopes == old(scopes) + [Scope(kind, parent, 0, [])]
    {
      id := |scopes|;
      scopes := scopes + [Scope(kind, parent, 0, [])];
    }

    /** `st_check_literal`: the first literal of the scope's own chain with
        the same type and text; the parent is never consulted, and a null
        scope finds nothing. */
    method CheckLiteral(scope: Option<ScopeId>, token: Token, ty: Type) returns (found: Option<nat>)
      requires Valid() && WellFormed(token)
      requires scope.Some? ==> scope.value < |scopes|
      ensures scope.None? ==> found.None?
      ensures scope.Some? ==> found == FindLiteral(scopes[scope.value].chain, token, ty)
    {
      if scope.None? {
        return None;
      }
      var chain := scopes[scope.value].chain;
      var i := 0;
      while i < |chain|
        invariant 0 <= i <= |chain|
        invariant forall j :: 0 <= j < i ==> !IsLiteralFor(chain[j], token, ty)
      {
        var sym := chain[i];
        if sym.kind == LiteralSymbol && sym.dataType == ty {
          var same := IsTokenEqual(sym.token, token);
          if same {
            return Some(i);
          }
        }
        i := i + 1;
      }
      return None;
    }

    /** `st_check_var`: the first variable of the scope's own chain with the
        same text; literals are ignored, and a null scope finds nothing. */
    method CheckVar(scope: Option<ScopeId>, identifier: Token) returns (found: Option<nat>)
      requires Valid() && WellFormed(identifier)
      requires scope.Some? ==> scope.value < |scopes|
      ensures scope.None? ==> found.None?
      ensures scope.Some? ==> found == FindVar(scopes[scope.value].chain, identifier)
    {
      if scope.None? {
        return None;
      }
      var chain := scopes[scope.value].chain;
      var i := 0;
      while i < |chain|
        invariant 0 <= i <= |chain|
        invariant forall j :: 0 <= j < i ==> !IsVarFor(chain[j], identifier)
      {
        var sym := chain[i];
        if sym.kind == VarSymbol {
          var same := IsTokenEqual(sym.token, identifier);
          if same {
            return Some(i);
          }
        }
        i := i + 1;
      }
      return None;
    }

    /** `st_scope_append`: links `sym` at the tail of the chain, gives it the
        scope's size before the call as its offset (the C code stores the
        returned offset into the new symbol) and grows the
        size by `size`. Earlier symbols and other scopes are untouched. */
    method ScopeAppend(scope: ScopeId, sym: Symbol, size: int) returns (offset: int)
      requires Valid() && scope < |scopes| && WellFormed(sym.token)
      modifies this
      ensures Valid()
      ensures offset == old(scopes[scope].size)
      ensures scopes == old(scopes)[scope := Appended(old(scopes[scope]), sym, size)]
    {
      var s := scopes[scope];
      offset := s.size;
      scopes := scopes[scope := Appended(s, sym, size)];
    }

    /** `st_create_literal`: declares a literal of type `ty` in `scope`. */
    method CreateLiteral(scope: ScopeId, token: Token, ty: Type) returns (offset: int)
      requires Valid() && scope < |scopes| && WellFormed(token)
      modifies this
      ensures Valid()
      ensures offset == old(scopes[scope].size)
      ensures scopes == old(scopes)[scope := Appended(old(scopes[scope]), Symbol(LiteralSymbol, token, ty, old(scopes[scope].size)), ty.size)]
    {
      offset := ScopeAppend(scope, Symbol(LiteralSymbol, token, ty, 0), ty.size);
    }

    /** `st_create_var`: declares a variable of type `ty` in `scope`. */
    method CreateVar(scope: ScopeId, identifier: Token, ty: Type) returns (offset: int)
      requires Valid() && scope < |scopes| && WellFormed(identifier)
      modifies this
      ensures Valid()
      ensures offset == old(scopes[scope].size)
      ensures scopes == old(scopes)[scope := Appended(old(scopes[scope]), Symbol(VarSymbol, identifier, ty, offset), ty.size)]
    {
      offset := ScopeAppend(scope, Symbol(VarSymbol, identifier, ty, 0), ty.size);
    }

    /** Overwrites the offset of the symbol at position `k` of a chain (the
        analyzer's `name->var.offset = ...`). */
    method SetOffset(scope: ScopeId, k: nat, offset: int)
      requires Valid() && scope < |scopes| && k < |scopes[scope].chain|
      modifies this
      ensures Valid()
      ensures scopes == old(scopes)[scope := old(scopes[scope]).(chain := old(scopes[scope].chain)[k := old(scopes[scope].chain[k]).(offset := offset)])]
    {
      var s := scopes[scope];
      scopes := scopes[scope := s.(chain := s.chain[k := s.chain[k].(offset := offset)])];
    }
  }
}
