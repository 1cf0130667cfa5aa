/** The IR generator (src/ir.c): lowers an analysed program to a flat list
    of three-address instructions over numbered registers and a global
    byte buffer. */
module Ir {
  import opened Common
  import opened Tokens
  import opened Types
  import opened Symbols
  import opened Ast

  // ---------------------------------------------------------------------
  // Instructions
  // ---------------------------------------------------------------------

  datatype Opcode =
    | Nop
    | GlobalAlloc      // arg1 = size of the global buffer
    | GlobalLoadConst  // arg1 = offset, arg2 = size, arg3 = value
    | GlobalLoad       // arg1 = offset, arg2 = size, arg3 = register
    | LoadGlobal       // arg1 = register, arg2 = offset, arg3 = size
    | Add              // arg1 = destination, arg2 = left, arg3 = right
    | Sub              // arg1 = destination, arg2 = left, arg3 = right
    | Print            // arg1 = register

  /** An `ir_t` node; the `next` link is the position in a sequence. */
  datatype Instr = Instr(op: Opcode, arg1: int, arg2: int, arg3: int)

  // ---------------------------------------------------------------------
  // strtoll(lexeme, NULL, 10), as ISO C11 section 7.22.1.4 describes it
  // ---------------------------------------------------------------------

  function DigitValue(c: char): nat
    requires IsDigit(c)
  {
    c as int - '0' as int
  }

  /** The number a string of decimal digits spells. */
  function DecimalValue(d: seq<char>): nat
    requires forall i :: 0 <= i < |d| ==> IsDigit(d[i])
  {
    if |d| == 0 then 0 else DecimalValue(d[..|d| - 1]) * 10 + DigitValue(d[|d| - 1])
  }

  /** Length of the longest prefix of `s` whose characters satisfy `p`. */
  function SpanOf(s: seq<char>, p: char -> bool): (n: nat)
    ensures n <= |s|
    ensures forall i :: 0 <= i < n ==> p(s[i])
    ensures n < |s| ==> !p(s[n])
  {
    if |s| == 0 || !p(s[0]) then 0 else 1 + SpanOf(s[1..], p)
  }

  /** Saturation into `long long`. */
  function Clamp64(x: int): (r: int)
    ensures IsInt64(r)
    ensures IsInt64(x) ==> r == x
    ensures x >= Two63 ==> r == Two63 - 1
    ensures x < -Two63 ==> r == -Two63
  {
    if x >= Two63 then Two63 - 1 else if x < -Two63 then -Two63 else x
  }

  /** `strtoll(s, NULL, 10)`: leading white space, an optional sign, then
      the longest run of digits; no digits gives 0, and a value out of range
      saturates. */
  function Strtoll(s: seq<char>): (r: int)
    ensures IsInt64(r)
  {
    var t := s[SpanOf(s, IsSpace)..];
    if |t| > 0 && (t[0] == '-' || t[0] == '+') then
      var u := t[1..];
      var v := DecimalValue(u[..SpanOf(u, IsDigit)]);
      Clamp64(if t[0] == '-' then -(v as int) else v)
    else
      Clamp64(DecimalValue(t[..SpanOf(t, IsDigit)]))
  }

  /** The decimal spelling of a natural number, without leading zeros. */
  function Decimal(n: nat): (d: seq<char>)
    ensures |d| > 0 && forall i :: 0 <= i < |d| ==> IsDigit(d[i])
  {
    if n < 10 then [('0' as int + n) as char]
    else Decimal(n / 10) + [('0' as int + n % 10) as char]
  }

  lemma {:induction false} DecimalValueOfDecimal(n: nat)
    ensures DecimalValue(Decimal(n)) == n
  {
    if n >= 10 {
      var d := Decimal(n);
      assert d[..|d| - 1] == Decimal(n / 10);
      DecimalValueOfDecimal(n / 10);
    }
  }

  /** `strtoll` reads back the decimal spelling of any number that fits in
      `long long`, and saturates on the others. */
  lemma StrtollDecimal(n: nat)
    ensures Strtoll(Decimal(n)) == if n < Two63 then n else Two63 - 1
  {
    var d := Decimal(n);
    assert !IsSpace(d[0]) && d[0] != '-' && d[0] != '+';
    assert d[SpanOf(d, IsSpace)..] == d;
    assert SpanOf(d, IsDigit) == |d|;
    assert d[..|d|] == d;
    DecimalValueOfDecimal(n);
  }

  // ---------------------------------------------------------------------
  // The code the generator emits, as a specification
  // ---------------------------------------------------------------------

  /** The code for an expression, the register holding its value, and the
      register counter afterwards. */
  datatype Lowered = Lowered(code: seq<Instr>, reg: int, next: int)

  /** The code for statements and the register counter afterwards. */
  datatype Emitted = Emitted(code: seq<Instr>, next: int)

  /** The i-th instruction of `code` writes register `base + 1 + i`, and an
      arithmetic instruction reads only registers written before it. */
  ghost predicate Numbered(code: seq<Instr>, base: int) {
    forall i :: 0 <= i < |code| ==>
      && code[i].arg1 == base + 1 + i
      && code[i].op in {LoadGlobal, Add, Sub}
      && (code[i].op != LoadGlobal ==>
            base < code[i].arg2 <= base + i && base < code[i].arg3 <= base + i)
  }

  lemma NumberedJoin(a: seq<Instr>, b: seq<Instr>, base: int, op: Opcode, left: int, right: int)
    requires Numbered(a, base) && Numbered(b, base + |a|) && |a| > 0 && |b| > 0
    requires op in {Add, Sub} && left == base + |a| && right == base + |a| + |b|
    ensures Numbered(a + b + [Instr(op, right + 1, left, right)], base)
  {
    var c := a + b + [Instr(op, right + 1, left, right)];
    forall i | 0 <= i < |c|
      ensures c[i].arg1 == base + 1 + i && c[i].op in {LoadGlobal, Add, Sub}
      ensures c[i].op != LoadGlobal ==> base < c[i].arg2 <= base + i && base < c[i].arg3 <= base + i
    {
      if i < |a| {
        assert c[i] == a[i];
      } else if i < |a| + |b| {
        assert c[i] == b[i - |a|];
      }
    }
  }

  /** `ir_expr` and the functions it dispatches to, starting with register
      counter `next`. A literal or identifier loads its node's offset and
      type size into a fresh register; a binary expression lowers the left
      operand, then the right, then adds or subtracts into a fresh
      register. A missing data type, an unknown expression kind and an
      unknown operator stop the program. */
  function LowerExpr(e: Node, next: int): (r: Result<Lowered>)
    ensures r.Ok? ==> |r.value.code| > 0 && r.value.next == next + |r.value.code|
    ensures r.Ok? ==> r.value.reg == r.value.next
    decreases e
  {
    match e.kind
    case LiteralExpr(_) => LowerLoad(e, next)
    case IdentifierExpr(_) => LowerLoad(e, next)
    case BinaryExpr(left, op, right) =>
      var l :- LowerExpr(left, next);
      var r :- LowerExpr(right, l.next);
      if op.kind != Plus && op.kind != Minus then Err(UnknownBinaryOperator)
      else
        var res := r.next + 1;
        Ok(Lowered(l.code + r.code + [Instr(if op.kind == Plus then Add else Sub, res, l.reg, r.reg)], res, res))
    case _ => Err(UnknownExpressionKind)
  }

  /** Registers come fresh from the counter: the code for an expression
      writes `next + 1`, `next + 2`, ... in order, and each `ADD`/`SUB`
      reads only registers written before it. */
  lemma {:induction false} LowerExprNumbered(e: Node, next: int)
    requires LowerExpr(e, next).Ok?
    ensures Numbered(LowerExpr(e, next).value.code, next)
    decreases e
  {
    match e.kind
    case LiteralExpr(_) =>
    case IdentifierExpr(_) =>
    case BinaryExpr(left, op, right) =>
      var l := LowerExpr(left, next).value;
      var r := LowerExpr(right, l.next).value;
      LowerExprNumbered(left, next);
      LowerExprNumbered(right, l.next);
      NumberedJoin(l.code, r.code, next, if op.kind == Plus then Add else Sub, l.reg, r.reg);
  }

  /** `ir_literal_expr` and `ir_identifier_expr`. */
  function LowerLoad(e: Node, next: int): (r: Result<Lowered>)
    ensures r.Ok? <==> e.ann.dataType.Some?
    ensures r.Ok? ==> r.value.code == [Instr(LoadGlobal, next + 1, e.ann.offset, e.ann.dataType.value.size)]
    ensures r.Ok? ==> r.value.reg == r.value.next == next + 1
    ensures r.Err? ==> r.error == NullDataType
  {
    if e.ann.dataType.None? then Err(NullDataType)
    else Ok(Lowered([Instr(LoadGlobal, next + 1, e.ann.offset, e.ann.dataType.value.size)], next + 1, next + 1))
  }

  /** `ir_stmt`: a `var` without initializer emits nothing; with one, the
      statement's own data type is read first (a missing one stops the
      program), then the expression's code and one store of its register
      at the statement's offset. Blocks emit their statements in order and
      no scope instructions. */
  function LowerStmt(s: Node, next: int): (r: Result<Emitted>)
    ensures r.Ok? ==> r.value.next >= next
    decreases s
  {
    match s.kind
    case VarStmt(_, _, init, _) =>
      if init.None? then Ok(Emitted([], next))
      else if s.ann.dataType.None? then Err(NullDataType)
      else
        var e :- LowerExpr(init.value, next);
        Ok(Emitted(e.code + [Instr(GlobalLoad, s.ann.offset, s.ann.dataType.value.size, e.reg)], e.next))
    case BlockStmt(ss) => LowerStmts(ss, next)
    case ExprStmt(expr, _) =>
      var e :- LowerExpr(expr, next);
      Ok(Emitted(e.code, e.next))
    case _ => Err(UnknownStatementKind)
  }

  /** A statement list, in order; the first failing statement stops it. */
  function LowerStmts(ss: seq<Node>, next: int): (r: Result<Emitted>)
    ensures r.Ok? ==> r.value.next >= next
    decreases ss
  {
    if |ss| == 0 then Ok(Emitted([], next))
    else
      var a :- LowerStmts(ss[..|ss| - 1], next);
      var b :- LowerStmt(ss[|ss| - 1], a.next);
      Ok(Emitted(a.code + b.code, b.next))
  }

  /** A failing prefix of a statement list makes the whole list fail with
      the same error. */
  lemma {:induction false} LowerStmtsPrefixFails(ss: seq<Node>, k: nat, next: int)
    requires k <= |ss| && LowerStmts(ss[..k], next).Err?
    ensures LowerStmts(ss, next) == LowerStmts(ss[..k], next)
    decreases |ss|
  {
    if k < |ss| {
      assert ss[..|ss| - 1][..k] == ss[..k];
      LowerStmtsPrefixFails(ss[..|ss| - 1], k, next);
    } else {
      assert ss[..k] == ss;
    }
  }

  /** `GLOBAL_LOAD_CONST` for one symbol of the memory scope: its offset,
      its type's size, and the value of a literal's lexeme (0 for a var). */
  function PreludeInstr(sym: Symbol): Instr
    requires WellFormed(sym.token)
  {
    Instr(GlobalLoadConst, sym.offset, sym.dataType.size,
          if sym.kind == LiteralSymbol then Strtoll(Lexeme(sym.token)) else 0)
  }

  /** One `GLOBAL_LOAD_CONST` per symbol of the chain, in chain order. */
  function Prelude(chain: seq<Symbol>): (r: seq<Instr>)
    requires ChainTokensOk(chain)
    ensures |r| == |chain|
    ensures forall i :: 0 <= i < |chain| ==> r[i] == PreludeInstr(chain[i])
  {
    if |chain| == 0 then [] else Prelude(chain[..|chain| - 1]) + [PreludeInstr(chain[|chain| - 1])]
  }

  /** `ir_prog`: `GLOBAL_ALLOC` of the memory scope's size, the prelude for
      its symbols, then the program's statements. A program without a
      memory scope stops the program. */
  function LowerProg(prog: Node, scopes: seq<Scope>, next: int): (r: Result<Emitted>)
    requires prog.kind.Prog? && ScopesOk(scopes)
    requires prog.ann.memoryScope.Some? ==> prog.ann.memoryScope.value < |scopes|
  {
    if prog.ann.memoryScope.None? then Err(NullScope)
    else
      var mem := scopes[prog.ann.memoryScope.value];
      var body :- LowerStmts(prog.kind.asts, next);
      Ok(Emitted([Instr(GlobalAlloc, mem.size, 0, 0)] + Prelude(mem.chain) + body.code, body.next))
  }

  /** The program's code starts with the allocation of the memory scope's
      size and then one `GLOBAL_LOAD_CONST` per symbol, in chain order. */
  lemma LowerProgShape(prog: Node, scopes: seq<Scope>, next: int)
    requires prog.kind.Prog? && ScopesOk(scopes)
    requires prog.ann.memoryScope.Some? ==> prog.ann.memoryScope.value < |scopes|
    requires LowerProg(prog, scopes, next).Ok?
    ensures var mem := scopes[prog.ann.memoryScope.value];
      var c := LowerProg(prog, scopes, next).value.code;
      && |c| >= 1 + |mem.chain|
      && c[0] == Instr(GlobalAlloc, mem.size, 0, 0)
      && forall i :: 0 <= i < |mem.chain| ==> c[1 + i] == PreludeInstr(mem.chain[i])
  {
    var mem := scopes[prog.ann.memoryScope.value];
    var body := LowerStmts(prog.kind.asts, next).value;
    var c := LowerProg(prog, scopes, next).value.code;
    assert c == [Instr(GlobalAlloc, mem.size, 0, 0)] + Prelude(mem.chain) + body.code;
    forall i | 0 <= i < |mem.chain|
      ensures c[1 + i] == PreludeInstr(mem.chain[i])
    {
      assert c[1 + i] == Prelude(mem.chain)[i];
    }
  }

  // ---------------------------------------------------------------------
  // The generator
  // ---------------------------------------------------------------------

  /** The generator's state: the instruction list built by `ir_append`
      (`global_head`/`global_tail`) and the static counter of
      `new_register`, which no call resets. */
  class Generator {
    var code: seq<Instr>
    var totalRegister: int

    constructor ()
      ensures code == [] && totalRegister == 0
    {
      code := [];
      totalRegister := 0;
    }

    /** `generate_ir`: a fresh list; the register counter carries on. */
    method GenerateIr(prog: Node, scopes: seq<Scope>) returns (r: Result<seq<Instr>>)
      requires prog.kind.Prog? && ScopesOk(scopes)
      requires prog.ann.memoryScope.Some? ==> prog.ann.memoryScope.value < |scopes|
      modifies this
      ensures var spec := LowerProg(prog, scopes, old(totalRegister));
        && (r.Ok? <==> spec.Ok?)
        && (r.Err? ==> r.error == spec.error)
        && (r.Ok? ==> r.value == code == spec.value.code && totalRegister == spec.value.next)
      ensures r.Ok? ==>
        var mem := scopes[prog.ann.memoryScope.value];
        && |r.value| >= 1 + |mem.chain|
        && r.value[0] == Instr(GlobalAlloc, mem.size, 0, 0)
        && forall i :: 0 <= i < |mem.chain| ==> r.value[1 + i] == PreludeInstr(mem.chain[i])
    {
      code := [];
      var done := IrProg(prog, scopes);
      if done.Err? {
        return Err(done.error);
      }
      LowerProgShape(prog, scopes, old(totalRegister));
      return Ok(code);
    }

    /** `ir_append`: links one instruction at the tail. */
    method IrAppend(op: Opcode, arg1: int, arg2: int, arg3: int)
      modifies this
      ensures code == old(code) + [Instr(op, arg1, arg2, arg3)]
      ensures totalRegister == old(totalRegister)
    {
      code := code + [Instr(op, arg1, arg2, arg3)];
    }

    /** `new_register`: 1, 2, 3, ... across the whole run. */
    method NewRegister() returns (reg: int)
      modifies this
      ensures reg == old(totalRegister) + 1 && totalRegister == reg
      ensures code == old(code)
    {
      totalRegister := totalRegister + 1;
      reg := totalRegister;
    }

    method IrProg(prog: Node, scopes: seq<Scope>) returns (r: Result<()>)
      requires prog.kind.Prog? && ScopesOk(scopes)
      requires prog.ann.memoryScope.Some? ==> prog.ann.memoryScope.value < |scopes|
      modifies this
      ensures var spec := LowerProg(prog, scopes, old(totalRegister));
        && (r.Ok? <==> spec.Ok?)
        && (r.Err? ==> r.error == spec.error)
        && (r.Ok? ==> code == old(code) + spec.value.code && totalRegister == spec.value.next)
    {
      if prog.ann.memoryScope.None? {
        return Err(NullScope);
      }
      var mem := scopes[prog.ann.memoryScope.value];
      IrAppend(GlobalAlloc, mem.size, 0, 0);
      IrPrelude(mem.chain);
      var body := IrStmts(prog.kind.asts);
      if body.Err? {
        return Err(body.error);
      }
      return Ok(());
    }

    /** The symbol loop of `ir_prog`: one `GLOBAL_LOAD_CONST` per symbol,
        in chain order. */
    method IrPrelude(chain: seq<Symbol>)
      requires ChainTokensOk(chain)
      modifies this
      ensures code == old(code) + Prelude(chain) && totalRegister == old(totalRegister)
    {
      for i := 0 to |chain|
        invariant code == old(code) + Prelude(chain[..i])
        invariant totalRegister == old(totalRegister)
      {
        var sym := chain[i];
        var value := 0;
        if sym.kind == LiteralSymbol {
          var lexical := TokenLexical(sym.token);
          value := Strtoll(lexical);
        }
        IrAppend(GlobalLoadConst, sym.offset, sym.dataType.size, value);
        assert chain[..i + 1][..i] == chain[..i];
      }
      assert chain[..|chain|] == chain;
    }

    /** The statement loops of `ir_prog` and `ir_block_stmt`. */
    method IrStmts(ss: seq<Node>) returns (r: Result<()>)
      modifies this
      ensures var spec := LowerStmts(ss, old(totalRegister));
        && (r.Ok? <==> spec.Ok?)
        && (r.Err? ==> r.error == spec.error)
        && (r.Ok? ==> code == old(code) + spec.value.code && totalRegister == spec.value.next)
      decreases ss, 1
    {
      for i := 0 to |ss|
        invariant LowerStmts(ss[..i], old(totalRegister)).Ok?
        invariant code == old(code) + LowerStmts(ss[..i], old(totalRegister)).value.code
        invariant totalRegister == LowerStmts(ss[..i], old(totalRegister)).value.next
      {
        assert ss[..i + 1][..i] == ss[..i];
        var s := IrStmt(ss[i]);
        if s.Err? {
          LowerStmtsPrefixFails(ss, i + 1, old(totalRegister));
          return Err(s.error);
        }
      }
      assert ss[..|ss|] == ss;
      return Ok(());
    }

    /** `ir_stmt`. */
    method IrStmt(stmt: Node) returns (r: Result<()>)
      modifies this
      ensures var spec := LowerStmt(stmt, old(totalRegister));
        && (r.Ok? <==> spec.Ok?)
        && (r.Err? ==> r.error == spec.error)
        && (r.Ok? ==> code == old(code) + spec.value.code && totalRegister == spec.value.next)
      decreases stmt, 0
    {
      match stmt.kind {
        case VarStmt(_, _, _, _) =>
          r := IrVarStmt(stmt);
        case BlockStmt(ss) =>
          r := IrStmts(ss);
        case ExprStmt(e, _) =>
          var reg := IrExpr(e);
          r := if reg.Err? then Err(reg.error) else Ok(());
        case _ =>
          r := Err(UnknownStatementKind);
      }
    }

    /** `ir_var_stmt`. */
    method IrVarStmt(stmt: Node) returns (r: Result<()>)
      requires stmt.kind.VarStmt?
      modifies this
      ensures var spec := LowerStmt(stmt, old(totalRegister));
        && (r.Ok? <==> spec.Ok?)
        && (r.Err? ==> r.error == spec.error)
        && (r.Ok? ==> code == old(code) + spec.value.code && totalRegister == spec.value.next)
      decreases stmt, 0
    {
      var init := stmt.kind.init;
      if init.Some? {
        var offset := stmt.ann.offset;
        if stmt.ann.dataType.None? {
          return Err(NullDataType);
        }
        var size := stmt.ann.dataType.value.size;
        var reg :- IrExpr(init.value);
        IrAppend(GlobalLoad, offset, size, reg);
      }
      return Ok(());
    }

    /** `ir_expr`: returns the register holding the expression's value. */
    method IrExpr(expr: Node) returns (r: Result<int>)
      modifies this
      ensures var spec := LowerExpr(expr, old(totalRegister));
        && (r.Ok? <==> spec.Ok?)
        && (r.Err? ==> r.error == spec.error)
        && (r.Ok? ==> r.value == spec.value.reg && code == old(code) + spec.value.code && totalRegister == spec.value.next)
      decreases expr, 1
    {
      match expr.kind {
        case LiteralExpr(_) =>
          r := IrLoad(expr);
        case IdentifierExpr(_) =>
          r := IrLoad(expr);
        case BinaryExpr(_, _, _) =>
          r := IrBinaryExpr(expr);
        case _ =>
          r := Err(UnknownExpressionKind);
      }
    }

    /** `ir_literal_expr` and `ir_identifier_expr`, which are the same. */
    method IrLoad(expr: Node) returns (r: Result<int>)
      modifies this
      ensures var spec := LowerLoad(expr, old(totalRegister));
        && (r.Ok? <==> spec.Ok?)
        && (r.Err? ==> r.error == spec.error)
        && (r.Ok? ==> r.value == spec.value.reg && code == old(code) + spec.value.code && totalRegister == spec.value.next)
    {
      var reg := NewRegister();
      if expr.ann.dataType.None? {
        return Err(NullDataType);
      }
      IrAppend(LoadGlobal, reg, expr.ann.offset, expr.ann.dataType.value.size);
      return Ok(reg);
    }

    /** `ir_binary_expr`. */
    method IrBinaryExpr(expr: Node) returns (r: Result<int>)
      requires expr.kind.BinaryExpr?
      modifies this
      ensures var spec := LowerExpr(expr, old(totalRegister));
        && (r.Ok? <==> spec.Ok?)
        && (r.Err? ==> r.error == spec.error)
        && (r.Ok? ==> r.value == spec.value.reg && code == old(code) + spec.value.code && totalRegister == spec.value.next)
      decreases expr, 0
    {
      ghost var c0 := code;
      var leftReg :- IrExpr(expr.kind.left);
      ghost var c1 := code;
      ghost var lc := LowerExpr(expr.kind.left, old(totalRegister)).value.code;
      var rightReg :- IrExpr(expr.kind.right);
      ghost var c2 := code;
      ghost var rc := code[|c1|..];
      assert c2 == c1 + rc;
      var op := expr.kind.op.kind;
      if op != Plus && op != Minus {
        return Err(UnknownBinaryOperator);
      }
      var res := NewRegister();
      var ins := Instr(if op == Plus then Add else Sub, res, leftReg, rightReg);
      IrAppend(ins.op, res, leftReg, rightReg);
      assert code == c2 + [ins];
      assert code == c0 + (lc + rc + [ins]);
      return Ok(res);
    }
  }
}
