/** What the generated code computes when the machine runs it: the
    lowering of src/ir.c read through the semantics of src/vm.c. */
module Correctness {
  import opened Common
  import opened Tokens
  import opened Types
  import opened Symbols
  import opened Ast
  import opened Ir
  import opened Vm

  // ---------------------------------------------------------------------
  // Expressions
  // ---------------------------------------------------------------------

  /** A literal or identifier reads its slot: the node's own offset and its
      type's size. */
  function LeafValue(e: Node, global: Option<seq<int>>): Result<int> {
    if e.ann.dataType.None? then Err(NullDataType)
    else LoadStep(global, e.ann.offset, e.ann.dataType.value.size)
  }

  /** The value of an expression over a buffer, evaluated directly on the
      tree: operands left to right, 64-bit wrap-around on `+` and `-`. */
  function Value(e: Node, global: Option<seq<int>>): Result<int>
    decreases e
  {
    match e.kind
    case LiteralExpr(_) => LeafValue(e, global)
    case IdentifierExpr(_) => LeafValue(e, global)
    case BinaryExpr(left, op, right) =>
      var a :- Value(left, global);
      var b :- Value(right, global);
      if op.kind == Plus then Ok(Wrap64(a + b))
      else if op.kind == Minus then Ok(Wrap64(a - b))
      else Err(UnknownBinaryOperator)
    case _ => Err(UnknownExpressionKind)
  }

  /** What a run shows of an expression's value: the fault that stopped
      it, or the contents of register `reg`. */
  function Outcome(r: Result<Machine>, reg: int): Result<int> {
    if r.Ok? then Ok(Reg(r.value.regs, reg)) else Err(r.error)
  }

  /** A run that ended without a fault left the buffer, the output and
      every register up to `next` as they were in `m`. */
  ghost predicate Framed(m: Machine, r: Result<Machine>, next: int) {
    r.Ok? ==>
      && r.value.global == m.global
      && r.value.output == m.output
      && forall j :: j <= next ==> Reg(r.value.regs, j) == Reg(m.regs, j)
  }

  /** The run `r` that started in `m` yields `v` in register `reg`: it
      faulted exactly when `v` is an error, with the same error, and
      otherwise kept the frame up to `next`. */
  ghost predicate Computes(m: Machine, r: Result<Machine>, v: Result<int>, reg: int, next: int) {
    Outcome(r, reg) == v && Framed(m, r, next)
  }

  /** `ADD`/`SUB` over the two operand values, left first. */
  function Combine(a: Result<int>, b: Result<int>, plus: bool): Result<int> {
    var x :- a;
    var y :- b;
    Ok(Wrap64(if plus then x + y else x - y))
  }

  /** One `ADD`/`SUB` with non-negative register numbers sets only its
      destination. */
  lemma ArithStepSets(m: Machine, ins: Instr, plus: bool, signedChar: bool)
    requires ins.op == (if plus then Add else Sub)
    requires ins.arg1 >= 0 && ins.arg2 >= 0 && ins.arg3 >= 0
    ensures var r := Step(m, ins, signedChar);
      && r.Ok? && r.value.global == m.global && r.value.output == m.output
      && var v := Wrap64(if plus then Reg(m.regs, ins.arg2) + Reg(m.regs, ins.arg3)
                         else Reg(m.regs, ins.arg2) - Reg(m.regs, ins.arg3));
         forall j :: Reg(r.value.regs, j) == if j == ins.arg1 then v else Reg(m.regs, j)
  {
    assert Step(m, ins, signedChar) == ArithStep(m, ins, plus);
  }

  /** One `ADD`/`SUB` into a fresh register after the code of both
      operands computes their combination. */
  lemma ArithComputes(m: Machine, lcode: seq<Instr>, rcode: seq<Instr>, signedChar: bool,
                      a: Result<int>, b: Result<int>, plus: bool, next: int, lreg: int, rreg: int)
    requires 0 <= next < lreg < rreg
    requires Computes(m, Exec(m, lcode, signedChar), a, lreg, next)
    requires Exec(m, lcode, signedChar).Ok? ==>
      var m1 := Exec(m, lcode, signedChar).value;
      Computes(m1, Exec(m1, rcode, signedChar), b, rreg, lreg)
    ensures Computes(m, Exec(m, lcode + rcode + [Instr(if plus then Add else Sub, rreg + 1, lreg, rreg)], signedChar),
                     Combine(a, b, plus), rreg + 1, next)
  {
    var ins := Instr(if plus then Add else Sub, rreg + 1, lreg, rreg);
    ExecLast(m, lcode + rcode, ins, signedChar);
    ExecAppend(m, lcode, rcode, signedChar);
    var r0 := Exec(m, lcode, signedChar);
    if r0.Ok? {
      var m1 := r0.value;
      var r1 := Exec(m1, rcode, signedChar);
      if r1.Ok? {
        var m2 := r1.value;
        ArithStepSets(m2, ins, plus, signedChar);
      }
    }
  }

  /** One `LOAD_GLOBAL` into a non-negative register yields the load's
      outcome there and changes no lower register. */
  lemma LoadComputes(m: Machine, ins: Instr, signedChar: bool)
    requires ins.op == LoadGlobal && ins.arg1 >= 0
    ensures Computes(m, Exec(m, [ins], signedChar), LoadStep(m.global, ins.arg2, ins.arg3), ins.arg1, ins.arg1 - 1)
  {
    ExecLast(m, [], ins, signedChar);
    assert [] + [ins] == [ins];
    var v := LoadStep(m.global, ins.arg2, ins.arg3);
    if v.Ok? {
      assert Step(m, ins, signedChar) == Ok(m.(regs := RegisterSet(m.regs, ins.arg1, v.value).value));
    } else {
      assert Step(m, ins, signedChar) == Err(v.error);
    }
  }

  /** A load of a literal or identifier's slot into a fresh register. */
  lemma LeafComputes(e: Node, next: int, m: Machine, signedChar: bool)
    requires next >= 0 && (e.kind.LiteralExpr? || e.kind.IdentifierExpr?) && LowerExpr(e, next).Ok?
    ensures Computes(m, Exec(m, LowerExpr(e, next).value.code, signedChar), Value(e, m.global), next + 1, next)
  {
    var ins := Instr(LoadGlobal, next + 1, e.ann.offset, e.ann.dataType.value.size);
    assert LowerExpr(e, next).value.code == [ins];
    assert Value(e, m.global) == LoadStep(m.global, ins.arg2, ins.arg3);
    LoadComputes(m, ins, signedChar);
  }

  /** The code of a binary expression is its operands' code and one
      `ADD`/`SUB`; its value combines theirs. */
  lemma BinaryShape(e: Node, next: int, global: Option<seq<int>>)
    requires e.kind.BinaryExpr? && LowerExpr(e, next).Ok?
    ensures var lv := LowerExpr(e.kind.left, next).value;
      var rv := LowerExpr(e.kind.right, lv.next).value;
      var plus := e.kind.op.kind == Plus;
      && LowerExpr(e.kind.left, next).Ok? && LowerExpr(e.kind.right, lv.next).Ok?
      && LowerExpr(e, next).value.code == lv.code + rv.code + [Instr(if plus then Add else Sub, rv.reg + 1, lv.reg, rv.reg)]
      && LowerExpr(e, next).value.reg == rv.reg + 1
      && Value(e, global) == Combine(Value(e.kind.left, global), Value(e.kind.right, global), plus)
  {
  }

  /** Running the code lowered for `e` computes `e`: it faults exactly when
      the tree's evaluation does, with the same error; otherwise its result
      register holds the value, the buffer and the output are untouched,
      and no register up to the starting counter changes. */
  lemma {:induction false} LowerExprCorrect(e: Node, next: int, m: Machine, signedChar: bool)
    requires next >= 0 && LowerExpr(e, next).Ok?
    ensures Computes(m, Exec(m, LowerExpr(e, next).value.code, signedChar), Value(e, m.global),
                     LowerExpr(e, next).value.reg, next)
    decreases e
  {
    match e.kind
    case LiteralExpr(_) =>
      LeafComputes(e, next, m, signedChar);
    case IdentifierExpr(_) =>
      LeafComputes(e, next, m, signedChar);
    case BinaryExpr(left, op, right) =>
      BinaryShape(e, next, m.global);
      var lv := LowerExpr(left, next).value;
      LowerExprCorrect(left, next, m, signedChar);
      if Exec(m, lv.code, signedChar).Ok? {
        LowerExprCorrect(right, lv.next, Exec(m, lv.code, signedChar).value, signedChar);
      }
      BinaryCorrect(e, next, m, signedChar);
  }

  /** The binary case of `LowerExprCorrect`, given its operands' cases. */
  lemma BinaryCorrect(e: Node, next: int, m: Machine, signedChar: bool)
    requires next >= 0 && e.kind.BinaryExpr? && LowerExpr(e, next).Ok?
    requires LowerExpr(e.kind.left, next).Ok?
    requires var lv := LowerExpr(e.kind.left, next).value;
      && LowerExpr(e.kind.right, lv.next).Ok?
      && Computes(m, Exec(m, lv.code, signedChar), Value(e.kind.left, m.global), lv.reg, next)
      && (Exec(m, lv.code, signedChar).Ok? ==>
            var m1 := Exec(m, lv.code, signedChar).value;
            var rv := LowerExpr(e.kind.right, lv.next).value;
            Computes(m1, Exec(m1, rv.code, signedChar), Value(e.kind.right, m1.global), rv.reg, lv.next))
    ensures Computes(m, Exec(m, LowerExpr(e, next).value.code, signedChar), Value(e, m.global),
                     LowerExpr(e, next).value.reg, next)
  {
    var lv := LowerExpr(e.kind.left, next).value;
    var rv := LowerExpr(e.kind.right, lv.next).value;
    var plus := e.kind.op.kind == Plus;
    var code := lv.code + rv.code + [Instr(if plus then Add else Sub, rv.reg + 1, lv.reg, rv.reg)];
    var v := Combine(Value(e.kind.left, m.global), Value(e.kind.right, m.global), plus);
    ArithComputes(m, lv.code, rv.code, signedChar, Value(e.kind.left, m.global), Value(e.kind.right, m.global),
                  plus, next, lv.reg, rv.reg);
    assert Computes(m, Exec(m, code, signedChar), v, rv.reg + 1, next);
    BinaryShape(e, next, m.global);
    assert LowerExpr(e, next).value.code == code;
    assert LowerExpr(e, next).value.reg == rv.reg + 1;
    assert Value(e, m.global) == v;
  }

  /** As the analyzer leaves them, literal and identifier nodes keep the
      offset -1 they were created with, so the load the generator emits
      for them reads before the buffer and faults. */
  lemma UnstampedLeafFaults(e: Node, next: int, m: Machine, signedChar: bool)
    requires next >= 0 && (e.kind.LiteralExpr? || e.kind.IdentifierExpr?)
    requires e.ann.offset == -1 && e.ann.dataType == Some(IntType)
    ensures LowerExpr(e, next).Ok?
    ensures Exec(m, LowerExpr(e, next).value.code, signedChar) == Err(MemoryFault)
  {
    LowerExprCorrect(e, next, m, signedChar);
  }

  // ---------------------------------------------------------------------
  // The prelude
  // ---------------------------------------------------------------------

  /** `GLOBAL_ALLOC` of the scope's size followed by its prelude. */
  function Setup(s: Scope): seq<Instr>
    requires ChainTokensOk(s.chain)
  {
    [Instr(GlobalAlloc, s.size, 0, 0)] + Prelude(s.chain)
  }

  /** What a symbol's slot reads after its `GLOBAL_LOAD_CONST` with
      unsigned `char`: the constant modulo the slot's width. */
  function Seed(sym: Symbol): int
    requires WellFormed(sym.token) && sym.dataType.size >= 0
  {
    Wrap64(PreludeInstr(sym).arg3 % Pow256(sym.dataType.size))
  }

  /** The first `n` symbols' slots of `mem` read back their seeds. */
  ghost predicate SeededUpTo(s: Scope, mem: seq<int>, n: nat)
    requires ChainTokensOk(s.chain) && PositiveSizes(s.chain) && n <= |s.chain|
  {
    forall k :: 0 <= k < n ==>
      LoadStep(Some(mem), s.chain[k].offset, s.chain[k].dataType.size) == Ok(Seed(s.chain[k]))
  }

  /** The store for symbol `n - 1` seeds its slot and keeps the earlier
      ones. */
  lemma SeedStore(s: Scope, mem: seq<int>, n: nat)
    requires WellLaid(s) && PositiveSizes(s.chain) && ChainTokensOk(s.chain)
    requires 0 < n <= |s.chain| && |mem| == s.size && SeededUpTo(s, mem, n - 1)
    ensures var sym := s.chain[n - 1];
      && 0 <= sym.offset && sym.offset + sym.dataType.size <= |mem|
      && SeededUpTo(s, Store(mem, sym.offset, sym.dataType.size, PreludeInstr(sym).arg3, false), n)
  {
    var sym := s.chain[n - 1];
    LayoutWithin(s, n - 1);
    var mem' := Store(mem, sym.offset, sym.dataType.size, PreludeInstr(sym).arg3, false);
    forall k | 0 <= k < n
      ensures LoadStep(Some(mem'), s.chain[k].offset, s.chain[k].dataType.size) == Ok(Seed(s.chain[k]))
    {
      LayoutWithin(s, k);
      if k < n - 1 {
        LayoutDisjoint(s, k, n - 1);
        LoadAfterDisjointStore(mem, sym.offset, sym.dataType.size, PreludeInstr(sym).arg3, false,
                               s.chain[k].offset, s.chain[k].dataType.size);
      } else {
        LoadStoreUnsigned(mem, sym.offset, sym.dataType.size, PreludeInstr(sym).arg3);
      }
    }
  }

  /** `GLOBAL_ALLOC` of the scope's size and the first `n` prelude
      stores. */
  function SetupPrefix(s: Scope, n: nat): seq<Instr>
    requires ChainTokensOk(s.chain) && n <= |s.chain|
  {
    [Instr(GlobalAlloc, s.size, 0, 0)] + Prelude(s.chain[..n])
  }

  /** A run ended without a fault in a machine that has the scope's buffer,
      no registers and no output, and whose first `n` slots are seeded. */
  ghost predicate SeededRun(s: Scope, r: Result<Machine>, n: nat)
    requires ChainTokensOk(s.chain) && PositiveSizes(s.chain) && n <= |s.chain|
  {
    && r.Ok? && r.value.global.Some? && |r.value.global.value| == s.size
    && r.value.regs == [] && r.value.output == []
    && SeededUpTo(s, r.value.global.value, n)
  }

  lemma PreludeEmpty(s: Scope)
    requires WellLaid(s) && PositiveSizes(s.chain) && ChainTokensOk(s.chain)
    ensures SeededRun(s, Exec(Boot, SetupPrefix(s, 0), false), 0)
  {
    var alloc := Instr(GlobalAlloc, s.size, 0, 0);
    SizeSumMonotone(s.chain, 0, |s.chain|);
    assert s.chain[..|s.chain|] == s.chain;
    assert SetupPrefix(s, 0) == [] + [alloc];
    ExecLast(Boot, [], alloc, false);
  }

  lemma PreludeExtend(s: Scope, n: nat)
    requires WellLaid(s) && PositiveSizes(s.chain) && ChainTokensOk(s.chain)
    requires 0 < n <= |s.chain|
    requires SeededRun(s, Exec(Boot, SetupPrefix(s, n - 1), false), n - 1)
    ensures SeededRun(s, Exec(Boot, SetupPrefix(s, n), false), n)
  {
    var before := SetupPrefix(s, n - 1);
    var sym := s.chain[n - 1];
    assert s.chain[..n][..n - 1] == s.chain[..n - 1];
    assert SetupPrefix(s, n) == before + [PreludeInstr(sym)];
    var m := Exec(Boot, before, false).value;
    SeedStore(s, m.global.value, n);
    ExecLast(Boot, before, PreludeInstr(sym), false);
    assert Step(m, PreludeInstr(sym), false)
      == Ok(m.(global := Some(Store(m.global.value, sym.offset, sym.dataType.size, PreludeInstr(sym).arg3, false))));
  }

  /** With unsigned `char`, after the allocation and the first `n` prelude
      stores each of those symbols' slots reads back its seed. */
  lemma {:induction false} PreludePrefix(s: Scope, n: nat)
    requires WellLaid(s) && PositiveSizes(s.chain) && ChainTokensOk(s.chain)
    requires n <= |s.chain|
    ensures SeededRun(s, Exec(Boot, SetupPrefix(s, n), false), n)
    decreases n
  {
    if n == 0 {
      PreludeEmpty(s);
    } else {
      PreludePrefix(s, n - 1);
      PreludeExtend(s, n);
    }
  }

  /** `ir_prog`'s setup seeds the buffer: every symbol of the memory scope
      reads back the value its `GLOBAL_LOAD_CONST` carries (the lexeme's
      value for a literal, 0 for a variable) modulo the slot's width. */
  lemma PreludeSeeds(s: Scope)
    requires WellLaid(s) && PositiveSizes(s.chain) && ChainTokensOk(s.chain)
    ensures var r := Exec(Boot, Setup(s), false);
      && r.Ok? && r.value.global.Some? && |r.value.global.value| == s.size
      && r.value.regs == [] && r.value.output == []
      && forall k :: 0 <= k < |s.chain| ==>
           LoadStep(r.value.global, s.chain[k].offset, s.chain[k].dataType.size) == Ok(Seed(s.chain[k]))
  {
    PreludePrefix(s, |s.chain|);
    assert s.chain[..|s.chain|] == s.chain;
  }

  /** If a literal node carried its pooled symbol's slot, the code lowered
      for it would read the literal's value back after the setup. */
  lemma StampedLiteralReadsSeed(s: Scope, k: nat, e: Node)
    requires WellLaid(s) && PositiveSizes(s.chain) && ChainTokensOk(s.chain)
    requires k < |s.chain| && s.chain[k].kind == LiteralSymbol
    requires e.kind.LiteralExpr? && e.ann.offset == s.chain[k].offset
    requires e.ann.dataType == Some(s.chain[k].dataType)
    ensures LowerExpr(e, 0).Ok?
    ensures var r := Exec(Boot, Setup(s) + LowerExpr(e, 0).value.code, false);
      && r.Ok?
      && Reg(r.value.regs, LowerExpr(e, 0).value.reg)
           == Wrap64(Strtoll(Lexeme(s.chain[k].token)) % Pow256(s.chain[k].dataType.size))
  {
    PreludeSeeds(s);
    var m := Exec(Boot, Setup(s), false).value;
    ExecAppend(Boot, Setup(s), LowerExpr(e, 0).value.code, false);
    LowerExprCorrect(e, 0, m, false);
  }
}
