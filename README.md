# A verified model of a tiny compiler pipeline

This project models, in Dafny, the compiler and virtual machine for a small
language. The language has integer literals, `var` declarations, `{ }` blocks
and left-associative `+`/`-`. The pipeline has six stages:

- **Lexer** (`src/token.c`). It scans a source string into a token list. It
  skips whitespace, keeps `;` and maximal digit runs, rejects every other
  character, and ends the list with an EOF token. Positions carry index, line
  and column.
- **Parser** (`src/ast.c`). It is recursive descent over a mutable token
  cursor. It builds a program of statements: expression statements, `var`
  statements with an optional initializer, and blocks. Expressions are
  left-leaning `+`/`-` chains over literals and identifiers.
- **Symbol table** (`src/st.c`). Scopes are headers with a parent link, a
  running byte `size` and a chain of symbols. Declaring a symbol appends it to
  the chain at offset `size`. Lookups scan one scope's own chain.
- **Analyzer** (`src/analyze.c`). It creates a global memory scope and a tree
  of name scopes, one per block. It rejects redeclarations within a name scope.
  It pools equal literals into the memory scope, resolves identifiers outward
  through the name scopes, and stamps scopes and types onto the tree.
- **IR generator** (`src/ir.c`). It emits `GLOBAL_ALLOC`, then one
  `GLOBAL_LOAD_CONST` per memory-scope symbol, then straight-line
  register code. Registers come from a counter that only grows.
- **VM** (`src/vm.c`). It runs the instruction list once, in order. It does
  big-endian byte stores and loads in a `char` buffer, and 64-bit add and
  subtract over registers that grow on demand.

Each stage is a class whose fields are the C stage's static state:

| class | fields |
|---|---|
| `Tokens.Lexer` | `src`, `cur`, `prev` and the token list |
| `Ast.Parser` | the token list, the cursor `cur` and `prev` |
| `Symbols.Table` | the scopes as an arena `seq<Scope>` indexed by handle |
| `Analyze.Analyzer` | the table plus the two global scope handles |
| `Ir.Generator` | the emitted list `code` and the register counter |
| `Vm.Vm` | the `global` buffer (an `array?<int>`), the registers and the printed values |

Each state-changing method is proved against a specification function on
values:

- `Ir.LowerExpr`, `Ir.LowerStmt` and `Ir.LowerProg` for the generator.
- `Vm.Step` and `Vm.Exec` for the machine.
- `Analyze.Resolve`, `Analyze.ExprCheck`, `Analyze.Pool`,
  `Analyze.StmtEffect` and the `Annotated*` relations for the analyzer.
  `StmtEffect` says which statements are accepted, with which error the
  others stop, and what table an accepted one leaves.
- `Ast.Pattern` and `Ast.Parsed` for the parser.
- `Tokens.LexedWell` for the lexer.

The module `Correctness` joins two stages. It proves that running the code
lowered for an expression computes the expression's value as evaluated
directly on the tree. It also proves what the prelude leaves in memory.

Errors that the C code reports with `error_print` followed by `exit(1)` are
`Err` results carrying a distinct `Error` constructor. Failing runtime
accesses in the VM are `Err(MemoryFault)` or `Err(RegisterFault)`.

## Model

| member | source | states |
|---|---|---|
| Tokens.TokenLexical | src/token.c:64-80 | the result is exactly the source text between the token's start index and end index |
| Tokens.Lexer.constructor | src/token.c:86-94 | a new lexer stands at the initial position with an empty token list |
| Tokens.Lexer.CurrentChar | src/token.c:149-152 | away from the end of the input, the result is the character at the cursor |
| Tokens.Lexer.NextChar | src/token.c:154-168 | at the end of the input it returns NUL and leaves the cursor alone; otherwise it returns the current character and advances the index by one, moving to the next line after a newline |
| Tokens.Lexer.AppendToken | src/token.c:129-147 | the list grows at its tail by one token of the given kind spanning from `prev` to `cur`; the kind is returned |
| Tokens.Lexer.ScanToken | src/token.c:111-126 | `;` or a maximal digit run yields exactly one new token, of the returned kind, and moves the cursor past it; any other character is an error naming that character's span |
| Tokens.Lexer.ReadToken | src/token.c:105-127 | whitespace is skipped; EOF is reported exactly when the input is used up, with no new token; otherwise one well-formed token of the returned kind is appended at the tail, or the error names a rejected character |
| Tokens.Lexer.SkipSpace | src/token.c:106-108 | only whitespace is skipped, and the cursor stops at the end or at a non-space |
| Tokens.Lexer.SkipDigits | src/token.c:119-121 | only digits are consumed, and the run stops at the end or at a non-digit, so the run is maximal |
| Tokens.GenerateTokens | src/token.c:36-47 | lexing succeeds exactly when every character is whitespace, `;` or a digit; the result covers the whole input with well-formed tokens in source order and ends with one EOF token at the final position; a failure names a rejected character |
| Tokens.PosOfAdvance | src/token.c:154-168 | stepping over one character gives the position of the next index: line and column are recounted from the text |
| Tokens.LexedOrdered | src/token.c:138-145 | the spans of the tokens are increasing and do not overlap |
| Tokens.LexedWithin | src/token.c:129-135 | every token ends at or before the position lexed so far |
| Tokens.LexedAppend | src/token.c:129-147 | appending a token read from the current position keeps the list a lexing of the prefix up to the token's end |
| Symbols.FindLiteral | src/st.c:27-39 | the result is the first literal symbol of the chain with that type and an equal lexeme; none exactly when there is no such symbol |
| Symbols.FindVar | src/st.c:49-60 | the result is the first var symbol of the chain with an equal lexeme, ignoring literals; none exactly when there is no such symbol |
| Symbols.IsTokenEqual | src/st.c:91-98 | true exactly when the two tokens' lexemes are equal |
| Symbols.Table.constructor | src/st.c:74-79 | the table starts with no scopes |
| Symbols.Table.CreateScope | src/st.c:20-25 | a new scope is added with the given kind and parent, size 0 and an empty chain; the other scopes are unchanged |
| Symbols.Table.CheckLiteral | src/st.c:27-39 | it finds what `FindLiteral` finds in the scope's own chain only, never the parent; for no scope it finds nothing; the table is unchanged |
| Symbols.Table.CheckVar | src/st.c:49-60 | it finds what `FindVar` finds in the scope's own chain only; for no scope it finds nothing; the table is unchanged |
| Symbols.Table.ScopeAppend | src/st.c:81-89 | the symbol is linked at the tail of the chain, the offset returned is the scope's size before the call, and the size grows by the given amount; nothing else changes |
| Symbols.Table.CreateLiteral | src/st.c:41-47 | a literal symbol is appended with offset equal to the old size, and the size grows by the type's size |
| Symbols.Table.CreateVar | src/st.c:62-68 | a var symbol is appended with offset equal to the old size, and the size grows by the type's size |
| Symbols.Table.SetOffset | src/analyze.c:110 | only the offset of the chosen symbol is overwritten |
| Symbols.AppendKeepsLayout | src/st.c:81-89 | after an append, every symbol's offset is still the sum of the sizes before it, and the scope's size is the sum of all of them |
| Symbols.SizeSumMonotone | src/st.c:86-88 | with positive sizes, the running sum of sizes strictly increases along the chain |
| Symbols.LayoutDisjoint | src/st.c:81-89 | earlier symbols have strictly smaller offsets, and their slots end before later slots begin |
| Symbols.LayoutWithin | src/st.c:81-89 | every slot lies inside `[0, size)` of its scope |
| Symbols.PooledAfterAppend | src/analyze.c:158-177 | appending a literal that is not yet in the chain keeps literals pooled: no two literals with the same type and lexeme |
| Symbols.PooledLiteralIsFound | src/st.c:27-39 | in a pooled chain, the lookup finds a stored literal at its own position |
| Ast.AstProg | src/ast.c:338-349 | the program node holds the statements in order and spans the first statement's start to the last statement's end, with default annotations |
| Ast.FitsAppend | src/ast.c:150-171 | concatenating two token runs that fit two grammar patterns gives a run that fits the concatenated pattern |
| Ast.FitsJoin | src/ast.c:245-257 | adjacent parsed slices join into one parsed slice |
| Ast.FitsOne | src/ast.c:122-129 | one matched token fits its one-token pattern |
| Ast.FirstEof | src/ast.c:146-148 | the result is the index of the first EOF token |
| Ast.ParsedBinary | src/ast.c:249-257 | a parsed left operand, an operator token and a parsed right operand parse as a binary node spanning from left's start to right's end |
| Ast.ParsedExprStmt | src/ast.c:234-243 | an expression followed by `;` parses as an expression statement |
| Ast.ParsedInit | src/ast.c:218-221 | `=` followed by a parsed expression fits the initializer pattern |
| Ast.ParsedVarStmt | src/ast.c:207-232 | `var`, an identifier, an optional initializer and `;` parse as a var statement |
| Ast.PatternsAppend | src/ast.c:196-202 | one more parsed statement extends a parsed statement list |
| Ast.BracedFits | src/ast.c:184-205 | statements between `{` and `}` fit the block pattern |
| Ast.Parser.constructor | src/ast.c:116-120 | the cursor starts at the first token |
| Ast.Parser.Next | src/ast.c:135-140 | it returns the current token, advances the cursor by one and records the token as `prev` |
| Ast.Parser.Match | src/ast.c:122-129 | it advances exactly when the current token has the requested kind, and otherwise changes nothing |
| Ast.Parser.ParsePrimary | src/ast.c:259-271 | it succeeds exactly on an int literal or an identifier, giving a one-token leaf; otherwise the error spans the offending token |
| Ast.Parser.ParseExpr | src/ast.c:245-257 | the consumed tokens parse as a left-associative `+`/`-` chain, and the chain is maximal: the next token is neither `+` nor `-` |
| Ast.Parser.ParseExprStmt | src/ast.c:234-243 | the consumed tokens are an expression followed by `;`; otherwise the error is a missing primary or a missing `;` |
| Ast.Parser.ParseVarStmt | src/ast.c:207-232 | after `var`, a missing identifier is an error at the current token; on success the tokens are `var`, an identifier, an optional initializer and `;` |
| Ast.Parser.ParseInitializer | src/ast.c:218-221 | there is an initializer exactly when the next token is `=`, and then it is a parsed expression |
| Ast.Parser.ParseBlockStmt | src/ast.c:184-205 | after `{`, the consumed tokens are a statement list closed by `}` |
| Ast.Parser.ParseBlockBody | src/ast.c:187-203 | statements are read until `}`, which is consumed; reaching EOF first is an error |
| Ast.Parser.ParseStmt | src/ast.c:173-182 | `{` leads to a block, `var` to a var statement, anything else to an expression statement |
| Ast.Parser.ParseStmtsToEof | src/ast.c:153-163 | statements are read until EOF, in source order; the list is empty exactly when the first token is EOF |
| Ast.Parser.ParseProg | src/ast.c:150-171 | a program is the non-empty statement list up to EOF; an empty program is exactly the case where the first token is EOF |
| Ast.GenerateAst | src/ast.c:52-57 | the tokens before EOF fit the program's grammar pattern, every node is fresh (offset -1, no type, no scopes), and an empty input is the empty-program error |
| Analyze.Ancestors | src/analyze.c:179-195 | the walk starts at the given scope and visits only scopes of the table |
| Analyze.AncestorsStep | src/analyze.c:182 | one step of the walk moves from a scope to its parent |
| Analyze.NearestDeclaring | src/analyze.c:179-195 | the result is the first scope on the walk that declares the name; none exactly when no scope on it does |
| Analyze.AncestorsFrame | src/analyze.c:80-90 | adding scopes and symbols does not change the parent walk of an existing scope |
| Analyze.ResolveFrame | src/analyze.c:158-177 | changes to the memory scope alone do not change how any name resolves |
| Analyze.NearestDeclaringFrame | src/analyze.c:179-195 | if the name-scope chains are unchanged, the nearest declaring scope is unchanged |
| Analyze.DeclarationShadows | src/analyze.c:92-111 | after a var is declared in a name scope, the name resolves from that scope to the new symbol, whatever outer scopes declare |
| Analyze.ExprCheckFrame | src/analyze.c:119-156 | whether an expression is accepted does not depend on the memory scope's literals |
| Analyze.ResolvedTypesFrame | src/analyze.c:179-195 | types resolved for an expression stay valid when only the memory scope grows |
| Analyze.FindLiteralGrown | src/st.c:27-39 | a literal found in a chain is found at the same place in any extension of that chain |
| Analyze.LiteralsStoredGrown | src/analyze.c:158-177 | literals pooled for an expression stay in the memory scope as it grows |
| Analyze.AnnotatedStmtKept | src/analyze.c:61-90 | a statement's annotation stays valid as later statements add scopes and symbols |
| Analyze.UpdateKeepsSound | src/st.c:81-89 | replacing one scope with a sound scope that has the same parent keeps the table sound |
| Analyze.MemoryLayout | src/st.c:81-89 | slots of the memory scope are disjoint, 4 bytes apart at least, and inside its size |
| Analyze.DistinctAfterAppend | src/analyze.c:95-100 | declaring a name that the scope does not hold keeps var names distinct within the scope |
| Analyze.KeptTrans | src/analyze.c:50-59 | "only appended to" is transitive across statements |
| Analyze.LiteralInserted | src/analyze.c:168-176 | pooling a new literal keeps the analyzer's invariant, appends it at the tail at offset equal to the old size, and makes it findable |
| Analyze.VarInserted | src/analyze.c:108-110 | declaring a var in both scopes keeps the analyzer's invariant and only appends |
| Analyze.VarInMemory | src/analyze.c:108 | the memory-scope half of a declaration keeps the invariant |
| Analyze.VarInNameScope | src/analyze.c:109-110 | the name-scope half of a declaration keeps the invariant |
| Analyze.Pool | src/analyze.c:158-177 | pooling an expression's literals adds no scope, keeps every scope's kind and keeps tokens well formed |
| Analyze.PoolKeepsInv | src/analyze.c:158-177 | pooling keeps the analyzer's invariant and only appends literal symbols to the memory scope |
| Analyze.DeclaredOk | src/analyze.c:108-110 | a declaration keeps tokens well formed and every scope's kind |
| Analyze.StmtEffect | src/analyze.c:61-117 | the reference outcome of one statement; an accepted statement keeps every scope's kind and well-formed tokens |
| Analyze.StmtsEffect | src/analyze.c:87-89 | the reference outcome of a statement list: the first error, or the table after the last statement |
| Analyze.StmtEffectKeepsInv | src/analyze.c:61-111 | an accepted statement keeps the analyzer's invariant and keeps every scope's kind, parent and symbols |
| Analyze.StmtsEffectKeepsInv | src/analyze.c:87-89 | an accepted statement list keeps the analyzer's invariant and keeps every existing scope |
| Analyze.VarStmtEffect | src/analyze.c:92-111 | a declaration is accepted exactly when its name is new in the current name scope and its initializer is accepted; the duplicate error comes first, then the initializer's error; an accepted one pools the initializer, then declares the var |
| Analyze.StmtsEffectAt | src/analyze.c:56-58 | the outcome from statement `i` on is statement `i`'s error, or the outcome of the rest from the table it leaves |
| Analyze.RedeclarationRejected | src/analyze.c:96-100 | two declarations of one name in the same name scope are rejected, at the second one when the first passes |
| Analyze.ShadowingAccepted | src/analyze.c:83-89 | a declaration opening a block is accepted whatever the enclosing scopes declare |
| Analyze.Booted | src/analyze.c:32-34 | the table `analyze` starts from satisfies the analyzer's invariant, with a name scope right after the memory scope |
| Analyze.Analyzer.AnalyzeItem | src/analyze.c:56-58 | one loop turn: the statement is analysed, earlier annotations stay valid, and the remaining reference outcome advances by one statement or is the error returned |
| Analyze.Analyzer.AnalyzeFreshVar | src/analyze.c:102-110 | after the duplicate check: it succeeds exactly when the initializer is accepted, fails with its error otherwise, and leaves the table with the initializer pooled and the var declared |
| Analyze.Analyzer.constructor | src/analyze.c:30-36 | the analyzer starts with an empty table |
| Analyze.Analyzer.Analyze | src/analyze.c:30-36 | it creates a parentless memory scope and a name scope whose parent is the memory scope, then annotates the program; it succeeds exactly when the reference outcome from that table does, fails with the same error otherwise, and leaves the table the reference gives |
| Analyze.Analyzer.AnalyzeProg | src/analyze.c:50-59 | a non-program node is an error; otherwise the statements are analysed in order under the global scopes, success, error and final table agree with the reference outcome, every statement is annotated, and existing scopes are only appended to |
| Analyze.Analyzer.AnalyzeStmt | src/analyze.c:61-78 | each statement kind goes to its handler and is stamped with the active scopes; any other node kind is an error; success, error and final table agree with `StmtEffect` |
| Analyze.Analyzer.AnalyzeBlockStmt | src/analyze.c:80-90 | a block gets a new name scope whose parent is the enclosing one and keeps the same memory scope; success, error and final table agree with `StmtEffect` |
| Analyze.Analyzer.AnalyzeBlockItems | src/analyze.c:87-89 | each statement of the block is annotated in order under the block's new name scope; the first error stops the loop, and success, error and final table agree with `StmtsEffect` |
| Analyze.Analyzer.AnalyzeVarStmt | src/analyze.c:92-111 | it succeeds exactly when the name is not yet declared in the current name scope and the initializer, if any, is accepted; a duplicate is `DuplicateDeclaration` at the identifier, a bad initializer fails with the initializer's error; on success the var is appended to both scopes with the memory-scope offset, and the table is the one `StmtEffect` gives |
| Analyze.Analyzer.AnalyzeInitializer | src/analyze.c:102-106 | without an initializer nothing happens; with one, it succeeds exactly when the expression is accepted, fails with the same error otherwise, and pools the expression's literals |
| Analyze.Analyzer.Declare | src/analyze.c:108-110 | the var is appended to the memory scope, then to the name scope, and the name-scope symbol takes the memory-scope offset |
| Analyze.Analyzer.AnalyzeExprStmt | src/analyze.c:113-117 | it succeeds exactly when the expression is accepted, with the same error otherwise; on success the table is the one `Pool` gives |
| Analyze.Analyzer.AnalyzeExpr | src/analyze.c:119-136 | it succeeds exactly when the reference check accepts the expression, with the same error otherwise; every node is stamped, identifiers get their declared types, and the table is the one `Pool` gives |
| Analyze.Analyzer.AnalyzeBinary | src/analyze.c:138-156 | the left operand is analyzed before the right, the node takes the left operand's type, and the table is the left operand's pooling followed by the right one's |
| Analyze.Analyzer.AnalyzeLiteral | src/analyze.c:158-177 | an int literal gets the int type and is appended to the memory scope only if no equal literal is there already, as `Pool` says; any other literal kind is an error |
| Analyze.Analyzer.InsertLiteral | src/analyze.c:175-176 | only the memory scope changes: the literal is appended at the tail at the old size and becomes findable |
| Analyze.Analyzer.AnalyzeIdentifier | src/analyze.c:179-195 | it succeeds exactly when some enclosing name scope declares the name, taking the type of the nearest such declaration; otherwise the error spans the identifier |
| Ir.SpanOf | src/ir.c:129 | the result is the longest prefix whose characters all satisfy the predicate |
| Ir.Clamp64 | src/ir.c:129 | values in the 64-bit range are kept, and values outside it saturate at the nearer bound |
| Ir.Strtoll | src/ir.c:129 | the result is always a 64-bit integer |
| Ir.Decimal | src/ir.c:129 | a decimal spelling is non-empty and made only of digits |
| Ir.DecimalValueOfDecimal | src/ir.c:129 | reading back the decimal spelling of `n` gives `n` |
| Ir.StrtollDecimal | src/ir.c:129 | parsing the spelling of `n` gives `n`, or the 64-bit maximum when `n` is too large |
| Ir.LowerExpr | src/ir.c:186-225 | the code for an expression is non-empty, its result register is the last one taken, and the counter advances by one per instruction |
| Ir.LowerExprNumbered | src/ir.c:206-225 | every instruction writes a fresh register numbered in emission order, and operands come from earlier registers, so the left operand is computed before the right |
| Ir.LowerLoad | src/ir.c:200-204 | a leaf emits exactly one `LOAD_GLOBAL` of the node's offset and type size into a fresh register; a leaf without a type is an error |
| Ir.LowerStmt | src/ir.c:146-184 | the counter never goes backwards |
| Ir.LowerStmts | src/ir.c:141-143 | the counter never goes backwards |
| Ir.LowerStmtsPrefixFails | src/ir.c:141-143 | if some prefix of a statement list fails to lower, the whole list fails with the same error |
| Ir.Prelude | src/ir.c:120-139 | there is one `GLOBAL_LOAD_CONST` per memory-scope symbol, in chain order, carrying its offset and size, and the literal's value or 0 for a var |
| Ir.NumberedJoin | src/ir.c:206-225 | left code, right code and one `ADD`/`SUB` into the next register are numbered in emission order |
| Ir.LowerProgShape | src/ir.c:113-144 | a program's code starts with `GLOBAL_ALLOC` of the memory scope's size, followed by the prelude |
| Ir.Generator.constructor | src/ir.c:31-35 | the list and the counter start empty and at 0 |
| Ir.Generator.GenerateIr | src/ir.c:31-35 | the list produced is the program's lowering from the current counter, which is not reset, and it starts with the allocation and the prelude |
| Ir.Generator.IrAppend | src/ir.c:91-106 | the instruction is added at the tail and earlier instructions are unchanged |
| Ir.Generator.NewRegister | src/ir.c:108-111 | the result is the old counter plus one, which becomes the new counter |
| Ir.Generator.IrProg | src/ir.c:113-144 | it emits exactly the program's lowering |
| Ir.Generator.IrPrelude | src/ir.c:120-139 | it emits exactly the prelude of the memory-scope chain |
| Ir.Generator.IrStmts | src/ir.c:141-143 | it emits the statements' lowerings in list order, and stops at the first failure |
| Ir.Generator.IrStmt | src/ir.c:146-161 | it emits exactly the statement's lowering; blocks and expression statements add no instructions of their own |
| Ir.Generator.IrVarStmt | src/ir.c:163-174 | a var without an initializer emits nothing; with one, the expression code is followed by one `GLOBAL_LOAD` of the var's slot from the result register |
| Ir.Generator.IrExpr | src/ir.c:186-198 | it emits exactly the expression's lowering and returns its result register |
| Ir.Generator.IrLoad | src/ir.c:200-204 | it emits exactly the leaf's single load |
| Ir.Generator.IrBinaryExpr | src/ir.c:206-225 | it emits the left code, then the right code, then one `ADD` or `SUB` into a fresh register; any other operator is an error |
| Vm.Pow256 | src/vm.c:45 | every power of 256 is positive |
| Vm.ByteOf | src/vm.c:45-46 | every extracted byte lies in 0..255 |
| Vm.Encode | src/vm.c:44-49 | the encoding has exactly `size` characters |
| Vm.Store | src/vm.c:36-50 | exactly the bytes in `[offset, offset+size)` change, and byte `i` gets bits `(size-1-i)*8` and up of the value, big-endian |
| Vm.Fold | src/vm.c:57-60 | the load's accumulated value is always a 64-bit integer |
| Vm.Grown | src/vm.c:115-129 | growing the registers to cover an index keeps every register's value, and never shrinks the array |
| Vm.RegisterGet | src/vm.c:115-121 | a negative index is a fault; otherwise the array grows to cover the index and the register's value is returned, with no register changed |
| Vm.RegisterSet | src/vm.c:123-129 | a negative index is a fault; otherwise only the chosen register changes |
| Vm.ExecAppend | src/vm.c:28-85 | running two code lists in sequence is running their concatenation, and a fault in the first stops the run |
| Vm.ExecLast | src/vm.c:28-85 | running one more instruction is one more step |
| Vm.ExecPrefixFails | src/vm.c:28-85 | a fault in a prefix is the fault of the whole run |
| Vm.FoldIsWrapped | src/vm.c:57-60 | the wrapped per-step fold equals the unbounded fold wrapped once |
| Vm.FoldRawEncode | src/vm.c:44-60 | the first `k` bytes of an unsigned encoding fold to the value's top `k` bytes |
| Vm.LoadStoreUnsigned | src/vm.c:36-63 | with unsigned `char`, a load after a store to the same slot returns the value's low `8*size` bits |
| Vm.LoadStoreSmallBytes | src/vm.c:36-63 | with signed `char`, the same round trip holds when every stored byte is below 0x80 |
| Vm.LoadAfterDisjointStore | src/vm.c:36-63 | a store does not change a load from a disjoint range |
| Vm.StoreDropsHighBits | src/vm.c:45-48 | bits of the value above `8*size` have no effect on the store |
| Vm.SignedCharReadBack | src/vm.c:10 | with signed `char`, storing 200 in four bytes loads back as -56 |
| Vm.NegativeReadBack | src/vm.c:52-63 | with unsigned `char`, storing -1 in four bytes loads back as 4294967295 |
| Vm.Vm.constructor | src/vm.c:22-25 | there is no buffer, no registers and no output |
| Vm.Vm.RunVm | src/vm.c:21-86 | the machine resets, then runs the list exactly as the step semantics does: one step per instruction, in order, stopping at the first fault |
| Vm.Vm.Execute | src/vm.c:29-82 | one instruction changes the state exactly as its step does |
| Vm.Vm.WriteBytes | src/vm.c:36-50 | the store loop writes exactly the big-endian encoding into the slot; a slot outside the buffer is a fault |
| Vm.Vm.ReadBytes | src/vm.c:52-63 | the load loop returns the fold of the slot's bytes; a slot outside the buffer is a fault |
| Vm.Vm.RegisterRead | src/vm.c:115-121 | it behaves as `RegisterGet` |
| Vm.Vm.RegisterWrite | src/vm.c:123-129 | it behaves as `RegisterSet` |
| Correctness.ArithStepSets | src/vm.c:65-76 | an `ADD`/`SUB` sets only its destination register, to the wrapped sum or difference |
| Correctness.ArithComputes | src/ir.c:206-225 | left code, right code and the combining instruction compute the combined value |
| Correctness.LoadComputes | src/ir.c:200-204 | a single `LOAD_GLOBAL` computes the slot's value into its register |
| Correctness.LeafComputes | src/ir.c:200-204 | the code for a leaf reads the leaf's slot |
| Correctness.LowerExprCorrect | src/ir.c:186-225 | running the lowered code yields the tree's value in the result register; it faults exactly when evaluation fails, with the same error, and leaves the buffer, output and earlier registers alone |
| Correctness.BinaryCorrect | src/ir.c:206-225 | the binary case of the above, given its operands' cases |
| Correctness.UnstampedLeafFaults | src/ir.c:202 | a leaf still at offset -1 lowers to a load that faults |
| Correctness.SeedStore | src/ir.c:120-139 | each prelude store seeds its own slot and leaves the earlier slots seeded |
| Correctness.PreludeEmpty | src/ir.c:117-118 | `GLOBAL_ALLOC` gives a buffer of the scope's size, with no registers and no output |
| Correctness.PreludeExtend | src/ir.c:120-139 | one more prelude store extends the seeded prefix by one slot |
| Correctness.PreludePrefix | src/ir.c:117-139 | after the allocation and the first `n` stores, those `n` slots read back their seeds |
| Correctness.PreludeSeeds | src/ir.c:113-139 | after the setup, every memory-scope slot reads back its constant, the literal's value or 0 for a var, modulo the slot's width |
| Correctness.StampedLiteralReadsSeed | src/ir.c:200-204 | a literal node carrying its pooled slot would read back its own value after the setup |
| Common.Wrap64 | src/vm.c:67-75 | the result is a 64-bit integer congruent to the input modulo 2^64 |
| Common.Wrap64Shift | src/vm.c:67-75 | adding a multiple of 2^64 does not change the wrapped value |
| Common.Wrap64Congruent | src/vm.c:67-75 | congruent inputs wrap to the same value |

## Left out

- Printing and inspection: `print_ast*`, `print_token`, `print_ir`, `print_vm_state`, `print_all_types` and the `token_type` name strings. They only format text for stdout.
- `error_print` and `exit(1)`. Each such site is an `Err` result carrying its own `Error` constructor, and the stage stops there.
- `read_file`, `main`, `free_ast` and `free_tokens`. They are I/O, a demo driver and deallocation.
- `PRINT` writes to stdout. The VM records each printed value in `output` instead. The generator never emits `PRINT`.
- Pointer identity and `malloc`. Scopes live in an arena (`seq<Scope>` indexed by `ScopeId`). A symbol is an index into its scope's chain. The int type is a constant of size 4 (`src/type.c:9`), so type-pointer identity is type equality.
- `malloc` failure is not modelled. Memory from `malloc` and `realloc` that was never written reads as 0.
- In-place annotation of the AST. The parser's nodes and lists are values (a datatype tree, with statement lists as sequences). The analyzer returns an annotated copy instead of writing `memory_scope`, `name_scope` and `data_type` into each node. Aliasing between nodes is therefore not captured.
- Statement and instruction lists are sequences rather than head/tail linked lists. Appending at the tail is appending to the sequence.
- The analyzer never writes a node's `offset` and never sets a `var` node's `data_type`. The model follows the code:
  - The generator reads offset -1 for every literal and identifier. Running such a load faults (`Correctness.UnstampedLeafFaults`).
  - A `var` with an initializer fails lowering with `NullDataType`. In C this is the null dereference at `src/ir.c:167`.
- `st_check_literal` does not consult the parent scope, although the header says it does. The model follows the code.
- The lexer emits only `;`, int literals and EOF. So identifiers, `var`, `=`, `+`, `-` and braces never reach the parser from real source. The parser is modelled over any EOF-terminated token list.
- Ast.Parser.ParseProg: parsing is proved sound (the result fits the grammar), not complete. That every token list in the language parses is not stated.
- Ast.GenerateAst: like `ParseProg`, only soundness is stated. A token list in the language is not proved to yield a tree.
- Tokens.GenerateTokens: the source is a Dafny string of known length. A NUL character inside it would end C's `strlen`; here it is rejected like any other stray character.
- C undefined behaviour, modelled as follows:
  - `>>` on a negative value or by 64 or more is floor division by a power of 256.
  - Signed overflow in `+`, `-` and `<<` wraps modulo 2^64 (`Common.Wrap64`).
  - A buffer access outside `[0, size)` or before `GLOBAL_ALLOC` is `MemoryFault`.
  - A negative register index is `RegisterFault`.
- Vm.Step: a negative `GLOBAL_ALLOC` size faults at once. In C, `malloc` of a huge size most likely returns null, and the fault comes at the next access.
- Ir.Generator.NewRegister: the `int` register counter is unbounded; its 32-bit overflow is not modelled.
- Ir.Strtoll: `errno` is not modelled. Leading white space, an optional sign, the longest digit run and saturation at both 64-bit bounds are modelled (section 7.22.1.4 of ISO C11).
- The signedness of `char` is a parameter of the VM (`signedChar`). The proofs that tie the prelude to the buffer use unsigned `char`. `Vm.SignedCharReadBack` shows how a signed `char` breaks the round trip.
