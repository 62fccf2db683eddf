# The Whais compiler, its interpreter's view of the code, and its client buffer

This project models the code generator of the Whais language and proves that
the bytes it produces do what the source says, together with the tables the
compiler keeps, the disassembler, the numerals, and the client's frame buffer.

The generator works in one pass. While a procedure is being parsed it appends
instructions to a byte stream, writes zero into the jumps whose target it does
not know yet, and patches them later from two stacks: the branch stack for
IF/ELSEIF/ELSE and the loop stack for WHILE, UNTIL, FOR, FOREACH, BREAK and
CONTINUE. Iterators and the operands of row copies live on the operand stack
above the locals; since the number of locals is not known while code is
emitted, their slot numbers are relocated when the procedure ends.

How the parts fit together:

- `Syntax`, `Operators`, `Data`: the language, its operator tables, run-time
  values.
- `Compiler`: the compiler as a recursive function that computes every size and
  offset directly. `Generator` (with `Rendering`, `Backpatch`, `OpenCode`,
  `GeneratorLemmas`, `RowFields`): the one-pass generator as a class whose
  methods append, patch and scan as the source does, proved to produce the same
  bytes.
- `Machine`, `ValueOps`: the interpreter of one procedure call. `Meaning`: the
  operators as arithmetic on integers, by static types and without
  instructions. `Semantics`: the meaning of expressions and statements on top of
  it; of the compiler it uses the static types and the field pairs of a row
  copy, none of its instructions. `OpcodeMeaning`: the operator tables choose
  the instruction that computes the operator's meaning. `StackLemmas`,
  `SimulateExp`, `SimulateCopy`, `SimulateStmt`, `ByteCounts`, `Limits`,
  `Correctness`: the code does what the source means, in both directions.
  `EndToEnd` puts generator, machine and meaning into one contract.
- `Memory`, `StoreLaws`, `Foreach`: what the machine and the meaning share, pinned
  by laws: reading after writing, what a write leaves alone, which elements a
  loop over an array visits. `Acceptance`: which types the compiler lets meet,
  said by the types alone.
- `StackDepth`, `StackDepthCode`, `StackDepthStmt`, `StackDepthRun`: the depth
  of the value stack is a function of the position in the code.
- `Returns`, `ReturnSafety`: what the missing-return check is worth.
- `Typing`, `Ranges`, `TypeLimits`: static types and run-time values, and exactly
  where they part.
- `Disassembler`, `Numerals`: the dump of code and of numbers.
- `DeclIds`, `UnitTables`, `ConstantPool`, `TypePool`, `FieldLists`: procedure
  and global ids, constant texts, type descriptors, table fields.
- `Connector`, `CommandReader`, `PagedListing`: the client's command frames, the
  server's reading of them, and the name listing.

## Results

The main statement is `EndToEnd.CompileBody`: for every procedure body the
generator succeeds exactly when the language accepts the body and a RETURN was
seen on every branch, and then, as long as the one-byte counts named below and
the 32-bit operands suffice, every run of the produced bytes, for all arguments
and all behaviours of the called procedures, ends as the source says, never
corrupts the stack, and (without loops) never falls off the end.

Where a property does not hold of the code for all inputs, the exact limit is
proved:

- Missing arguments of a call are counted in one byte: `W_CALL` finds the
  declared number of values if and only if at most 255 are missing
  (`SimulateExp.MissingExact`). The theorems on runs ask this of each call; that
  compiled code decodes and that its jumps land holds without it.
- A comparison of an unsigned and a signed integer reads both as signed: which
  results are those of the integer order is proved for all operands
  (`Meaning.CompareExact`) and for all types (`Meaning.ComparesTypesExact`).
- The values a row copy leaves are dropped by a one-byte count: all of them go
  if and only if at most 251 fields are copied (`SimulateCopy.SimCopy`).
- The return check is exact without loops (`Returns.ReturnFlagExact`). With
  loops it never refuses a body whose every path returns
  (`Returns.NoFlagEscapes`), but it accepts a RETURN inside a loop that may run
  zero times (`ReturnSafety.CheckedMayFall`). Whether some path falls off can be
  read off every statement (`Returns.FallsExact`), and a run falls off the end
  only if some path does (`ReturnSafety.FallsOnPath`).
- The static type of an expression has the family of its values as long as
  nothing but NULL is undetermined (`Typing.EvalTyped`), but not always their
  range. For each operator the exact
  condition on its operands is proved (`Ranges.NumRangeExact`,
  `Ranges.NotRangeExact`), and exactly which operators, literals and selection
  arms are harmless for their types (`TypeLimits.KeepsExact`): harmful are
  signed literals from 2^63 on, complements of unsigned types, differences of
  unsigned types, sums of unsigned types and bitwise operations where 64-bit or
  signed operands can set the top bit, and undetermined arms. A set of these is
  sound for all expressions if and only if it contains none of the harmful ones
  (`TypeLimits.SoundExact`).
- The server reads back the commands that were sent up to the first array of
  texts, which the client accepts and the server does not
  (`CommandReader.ServerReads`).
- The dump of a table type gives back the written fields if and only if no name
  has one byte or starts with `;` (`TypePool.DumpExact`); the descriptor's size
  is right if and only if its data is shorter than 65536 bytes
  (`TypePool.SizedExact`).
- The text printed for a real literal denotes the literal's number if and only
  if it has at most 17 fraction digits or they are all zero
  (`Numerals.PrintedExact`): with more digits the scaling is skipped.

Facts about the language the model follows the code in, where one could expect
otherwise: UNTIL repeats its body while the condition is true; a NULL condition
takes the THEN branch and continues a WHILE or FOR, since `W_JFC` is taken on
false only; a decided AND or OR leaves its first operand itself as the result;
locals are pushed as references, so an operand sees assignments made by later
operands of the same operator; the sum of two unsigned numbers has an unsigned
type and is computed as a signed number.

## Model

| member | source | states |
|---|---|---|
| EndToEnd.CompileBody | compiler/semantics/brlo_stmts.c:149-729 | One-pass compilation succeeds exactly for accepted bodies with RETURN on every branch; every run of its bytes ends as the source semantics says and never corrupts the stack |
| EndToEnd.ReturnFive | compiler/semantics/expression.c:3886-4012 | An instance: RETURN 5 in a procedure that returns an INT32 is accepted, and its bytes are 3, 5, 44 |
| Correctness.ProcedureCorrect | compiler/semantics/brlo_stmts.c:149-729 | Whatever number of loop rounds the source needs, the finished bytes run from offset 0 reach the same store, result or exception; while the source loops on, the machine runs on; no call in the body may leave out more than 255 arguments, whatever the procedures declare |
| Correctness.MachineStops | interpreter/prima/pm_processor.cpp:1025-1127 | If the machine stops at all, the source ends, and in the same state |
| Correctness.NeverCorrupt | interpreter/prima/pm_processor.cpp:300-330 | No run decodes an invalid instruction, underflows the stack or reaches a missing slot |
| Correctness.NoJumpOut | compiler/semantics/brlo_stmts.c:646-650 | Outside loops no statement ends by BREAK or CONTINUE |
| Correctness.FinishedAt | compiler/semantics/procdecl.c:376-388 | The finished bytes of every accepted body decode, from offset 0, to the compiled instructions with iterator slots behind the locals |
| CodeGenerator.Generator.constructor | compiler/semantics/statement.c:74-105 | A procedure starts with empty code, empty stacks and its parameters as locals |
| CodeGenerator.Generator.Emit | compiler/semantics/op_matrix.c:360-366 | Appends one instruction to the code stream |
| CodeGenerator.Generator.EmitSlot | compiler/semantics/table_stmts.c:363-379 | Appends a provisional slot load and records where its operand stands |
| CodeGenerator.Generator.EmitOpen | compiler/semantics/brlo_stmts.c:662-663 | Appends a jump with a zero operand that a later scan will patch |
| CodeGenerator.Generator.PatchJump | compiler/semantics/brlo_stmts.c:205 | Overwriting four operand bytes changes exactly the jump that starts there |
| CodeGenerator.Generator.TranslateLeaf | compiler/semantics/expression.c:2353-2644 | Constants, iterators and locals compile as in the reference compiler, or fail with it |
| CodeGenerator.Generator.TranslateOffset | compiler/semantics/expression.c:2646-2734 | OFFSET of an iterator loads its slot and asks for the index |
| CodeGenerator.Generator.TranslateOpcode | compiler/semantics/expression.c:2223-2351 | The operator's instruction and result type are those of the operator tables, or the operand types are refused |
| CodeGenerator.Generator.TranslateBinary | compiler/semantics/expression.c:3781-3845 | Two operands and their operator; the open jump of a Boolean AND/OR is patched to the byte after the operator |
| CodeGenerator.Generator.TranslateSelect | compiler/semantics/expression.c:3111-3210 | Both jumps of a selection are patched so that the code equals the one with computed offsets |
| CodeGenerator.Generator.TranslateArgs | compiler/semantics/expression.c:2771-2938 | Arguments left to right, each accepted exactly when the reference compiler accepts it |
| CodeGenerator.Generator.TranslateCall | compiler/semantics/expression.c:2736-2987 | Arguments, one instruction for all missing ones, and the call |
| CodeGenerator.Generator.TranslateUnary | compiler/semantics/expression.c:518-568 | NOT by operand type, and the null tests |
| CodeGenerator.Generator.TranslateTree | compiler/semantics/expression.c:3722-3845 | Every expression tree: the bytes appended and the type returned are those of the reference compiler, or both fail |
| CodeGenerator.Generator.AddConstantText | compiler/semantics/statement.c:497-533 | The offset returned and the area afterwards are those of the first match or of appending |
| CodeGenerator.FindText | compiler/semantics/statement.c:513-520 | The linear search finds the first acceptable occurrence and never looks past the area |
| CodeGenerator.SelectFields | compiler/semantics/table_stmts.c:508-569 | The fields named on both sides of a row copy, or failure |
| CodeGenerator.Generator.TranslateOperands | compiler/semantics/table_stmts.c:250-323 | Two tables and two integer rows are left on the stack, or the statement is refused |
| CodeGenerator.Generator.TranslateFieldCopy | compiler/semantics/table_stmts.c:382-424 | The nine instructions of one field with both names in the constant area |
| CodeGenerator.Generator.CopyRowsFields | compiler/semantics/table_stmts.c:426-474 | All fields in order through the same four slots, or failure on the first unmatched type |
| CodeGenerator.Generator.TranslateRowCopy | compiler/semantics/table_stmts.c:478-707 | Both row copy statements produce the reference compiler's code and constant area |
| CodeGenerator.Generator.TranslateBool | compiler/semantics/expression.c:4015-4040 | A condition is accepted exactly when it is Boolean |
| CodeGenerator.Generator.TranslateExp | compiler/semantics/expression.c:3847-3884 | An expression statement drops its one value |
| CodeGenerator.Generator.TranslateAutoStore | compiler/semantics/expression.c:1474-1568 | The first assignment loads the next local's number before the expression and declares it after |
| CodeGenerator.Generator.AddDeclaration | compiler/semantics/vardecl.c:130-301 | A local is declared once; a second declaration is refused |
| CodeGenerator.Generator.DetectReturn | compiler/semantics/expression.c:3899-3910 | RETURN raises the flag of the innermost open branch, or else of the procedure |
| CodeGenerator.Generator.TranslateReturn | compiler/semantics/expression.c:3886-4012 | RETURN of a value the declared type admits |
| CodeGenerator.Generator.BeginIf | compiler/semantics/brlo_stmts.c:149-179 | Condition, open jump, and a branch entry that knows the jump |
| CodeGenerator.Generator.BeginElse | compiler/semantics/brlo_stmts.c:181-206 | The condition's jump is patched to the ELSE branch, whose own open jump is recorded |
| CodeGenerator.Generator.BeginElseIf | compiler/semantics/brlo_stmts.c:208-223 | As ELSE with an IF in it, on a second entry of the same chain, keeping the branch's return flag |
| CodeGenerator.Generator.FinalizeIf | compiler/semantics/brlo_stmts.c:225-280 | The scan patches every branch of the chain to the end, stops at its IF entry, and passes on whether all branches return |
| CodeGenerator.Generator.BeginFor | compiler/semantics/brlo_stmts.c:283-337 | First expression, patched jump over the step, step, condition, open exit |
| CodeGenerator.Generator.BeginForeach | compiler/semantics/brlo_stmts.c:339-408 | Container, start and step instructions, open exit, and a new iterator |
| CodeGenerator.Generator.BeginWhile | compiler/semantics/brlo_stmts.c:474-507 | Condition and open exit, with the CONTINUE target before the condition |
| CodeGenerator.Generator.BeginUntil | compiler/semantics/brlo_stmts.c:561-576 | A loop entry with the body's start |
| CodeGenerator.Generator.PatchExits | compiler/semantics/brlo_stmts.c:432-452 | The scan from the top of the loop stack stops at the loop's own entry and patches exactly that loop's BREAKs and CONTINUEs |
| CodeGenerator.Generator.FinalizeLoop | compiler/semantics/brlo_stmts.c:410-559 | The end of WHILE, FOR and FOREACH: exits and jump back patched, the stack as before the loop, a FOREACH iterator dropped |
| CodeGenerator.Generator.FinalizeUntil | compiler/semantics/brlo_stmts.c:578-635 | The end of UNTIL: condition, jump back to the body, BREAKs behind it, CONTINUEs to the condition |
| CodeGenerator.Generator.HandleBreak | compiler/semantics/brlo_stmts.c:637-667 | BREAK is refused exactly outside loops and leaves an open jump on the loop stack |
| CodeGenerator.Generator.HandleContinue | compiler/semantics/brlo_stmts.c:669-729 | CONTINUE jumps to the known mark, or leaves an open jump in an UNTIL |
| CodeGenerator.Generator.CompileSimple | compiler/semantics/table_stmts.c:478-707 | Declarations, assignments, expression statements, returns and row copies extend the code as the reference compiler says |
| CodeGenerator.Generator.CompileWhile | compiler/semantics/brlo_stmts.c:474-559 | A whole WHILE: items, stacks, declarations and flags after it |
| CodeGenerator.Generator.CompileFor | compiler/semantics/brlo_stmts.c:283-472 | A whole FOR |
| CodeGenerator.Generator.CompileForeach | compiler/semantics/brlo_stmts.c:339-472 | A whole FOREACH, its iterator gone afterwards |
| CodeGenerator.Generator.CompileUntil | compiler/semantics/brlo_stmts.c:561-635 | A whole UNTIL |
| CodeGenerator.Generator.CompileBranches | compiler/semantics/brlo_stmts.c:181-223 | All branches of an IF with their end jumps still open, and the branch entries they leave |
| CodeGenerator.Generator.CompileIf | compiler/semantics/brlo_stmts.c:149-280 | A whole IF: the patched code equals the one with computed offsets |
| CodeGenerator.Generator.CompileStmt | compiler/semantics/brlo_stmts.c:149-729 | Every statement: accepted exactly when the reference compiler accepts it, with its code, declarations, loop entries and return flag |
| CodeGenerator.Generator.FinishProcDecl | compiler/semantics/procdecl.c:357-394 | The relocation loop moves every recorded slot behind the final number of locals; a missing return is an error |
| CodeGenerator.Generator.CompileProc | compiler/semantics/procdecl.c:357-394 | The finished bytes are byte for byte those of the reference compiler, with nothing left open |
| Rendering.StorePatches | compiler/semantics/brlo_stmts.c:205 | Four overwritten bytes change the operand of one jump and nothing else |
| Rendering.RelocationRenders | compiler/semantics/procdecl.c:376-388 | Adding the number of locals to every recorded operand is the same as having emitted the final slot numbers |
| Rendering.RenderAt | compiler/wod/wod_decoder.cpp:95-553 | Emitted code decodes to the instructions it was emitted from |
| Backpatch.MarksKeepLoop | compiler/semantics/brlo_stmts.c:681-689 | The loop stack stays a sequence of segments, and a statement's entries never hide the enclosing loop |
| Backpatch.InnermostExists | compiler/semantics/brlo_stmts.c:646-695 | BREAK and CONTINUE agree on whether there is a loop |
| Backpatch.PatchLoopResolves | compiler/semantics/brlo_stmts.c:432-452 | Patching all entries a body recorded binds all its BREAKs and CONTINUEs and nothing else |
| OpenCode.StmtClosed | compiler/semantics/brlo_stmts.c:149-729 | Outside loops no jump is left open |
| OpenCode.ChainCloses | compiler/semantics/brlo_stmts.c:236-268 | Patching the branch entries of an IF chain gives the code with computed offsets |
| OpenCode.LoopCloses | compiler/semantics/brlo_stmts.c:424-456 | Patching exits, exit jump and jump back gives the loop with computed offsets |
| OpenCode.UntilCloses | compiler/semantics/brlo_stmts.c:608-635 | The same for UNTIL |
| OpenCode.AllReturnExact | compiler/semantics/brlo_stmts.c:265-266 | The flags left by the branches say exactly whether the chain has an ELSE and all branches return |
| Memory.WholeByElements | interpreter/prima/pm_operand_array.cpp:36-60 | An array reads as the sequence of its elements, and as NULL when it has none; there is no other element to read |
| Memory.NullTestExact | interpreter/prima/pm_operand_array.cpp:147-151 | The null test agrees with reading, except that an array element tests as NULL exactly where there is none |
| Memory.ConditionExact | interpreter/prima/pm_processor.cpp:1025-1117 | A condition is what is read, when that is a Boolean or NULL |
| Memory.WritableExact | interpreter/prima/pm_processor.cpp:312-328 | A write succeeds exactly on elements that exist, on rows that exist and on the row behind the last one |
| Memory.ReadAfterWrite | interpreter/prima/pm_processor.cpp:312-328 | What was written through a reference is what is read through it afterwards |
| Memory.OthersStay | interpreter/prima/pm_processor.cpp:312-328 | A write changes no other element, cell, array or table |
| Memory.LengthsStay | interpreter/prima/pm_processor.cpp:312-328 | Only a whole array written changes a length; a table grows by the row behind its last one |
| Memory.AppendedRow | interpreter/prima/pm_processor.cpp:312-328 | The other fields of an appended row are NULL |
| Memory.VisitsExact | interpreter/prima/pm_operand_array.cpp:128-172 | The iterators a loop over an array has are exactly those on its elements 0, 1, .., n-1, or n-1, .., 1, 0 in reverse, each once, and then none |
| StoreLaws.StoredReads | interpreter/prima/pm_processor.cpp:312-328 | After an assignment the place reads as the assigned value converted to the place's type |
| StoreLaws.StoredElsewhere | interpreter/prima/pm_processor.cpp:312-328 | An assignment changes no other variable, element, cell, array or table |
| StoreLaws.SelectedElement | interpreter/prima/pm_processor.cpp:1129-1148 | An indexed array is a reference to the element of that number, which reads as that element |
| StoreLaws.CopyReads | compiler/semantics/table_stmts.c:382-424 | After the copy of one field the left cell reads as the right one did, converted to the left field's type, and all else reads as before |
| Foreach.ForeachVisits | compiler/semantics/brlo_stmts.c:339-408 | A FOREACH over an array whose length its body leaves alone runs the body once for every element in order, up to a BREAK, a RETURN or a failure |
| Foreach.IteratorReads | compiler/semantics/brlo_stmts.c:339-408 | In each round the iterator reads as the element the round is for |
| Foreach.NothingToVisit | interpreter/prima/pm_processor.cpp:1384-1404 | A loop over NULL has no rounds |
| Foreach.ExecKeeps | interpreter/prima/pm_processor.cpp:1407-1421 | No statement changes the iterators of the loops around it |
| Acceptance.StoreExact | compiler/semantics/op_matrix.c:337-357 | An assignment is accepted exactly for a value of the same kind or an undetermined one; every integer type takes every integer |
| Acceptance.PassableExact | compiler/semantics/expression.c:2771-2938 | An argument is accepted exactly when its type fits the parameter's, said by the types alone |
| Acceptance.ReturnableExact | compiler/semantics/expression.c:3886-4012 | A result is accepted exactly when its type fits the declared one |
| Acceptance.CopyExact | compiler/semantics/table_stmts.c:382-424 | A field is copied exactly to one of the same kind, an array to an array of the same type |
| Acceptance.IndexExact | compiler/semantics/expression.c:2135-2221 | An index is an integer or undetermined, a row number an integer |
| Acceptance.CommonExact | compiler/semantics/expression.c:3022-3109 | Two arms are accepted exactly when the type of one is wider, which is then the type of the selection |
| Acceptance.LookupExact | compiler/semantics/statement.c:128-201 | A name is found exactly when it is declared, and means its first declaration |
| Meaning.CompareExact | interpreter/prima/pm_processor.cpp:605-756 | A comparison of in-range integers is the comparison of the integers if and only if: always for two unsigned or two signed types; with one unsigned and one signed operand, when the unsigned one is below 2^63 or the other is below, or not equal to, that number less 2^64, as the operator asks |
| Meaning.ComparesTypesExact | compiler/semantics/op_matrix.c:138-269 | The operand types guarantee the integer order for all values if and only if they have the same sign or the unsigned one has less than 64 bits |
| Meaning.GreatestIsMinusOne | compiler/semantics/op_matrix.c:226-247 | An instance: the UINT64 2^64-1 equals the INT64 -1 and is less than the INT64 0 |
| Meaning.DivisionExact | interpreter/prima/pm_processor.cpp:569-601 | Quotient and remainder are the only numbers with a = q * b + r, a remainder smaller than the divisor, and the sign of a |
| Meaning.BitwiseExact | interpreter/prima/pm_processor.cpp:536-568 | The result of AND, OR and XOR is the only 64-bit word each of whose bits is the operation on the operands' bits |
| Meaning.ComplementBits | compiler/semantics/expression.c:518-549 | NOT flips each of the 64 bits |
| Meaning.FittedExact | compiler/semantics/expression.c:1570-1662 | A conversion gives the only number of the type that differs by a multiple of the size of the type; a number of the type is unchanged |
| OpcodeMeaning.OpcodeExact | compiler/semantics/op_matrix.c:28-336 | The operator tables have an instruction exactly for the types the operator accepts, with the result type the operator has |
| OpcodeMeaning.OperatorMeaning | compiler/semantics/op_matrix.c:28-336 | The instruction chosen for an operator computes what the operator means, on every pair of operands, NULLs and failures included |
| OpcodeMeaning.ComplementMeaning | compiler/semantics/expression.c:518-549 | The instruction chosen for NOT gives the negated Boolean or the complement of the word |
| OpcodeMeaning.StoreMeaning | compiler/semantics/op_matrix.c:337-357 | The store chosen for an assignment converts to the type of the place stored to |
| SimulateExp.SimExp | compiler/semantics/expression.c:3722-3845 | Expression code leaves exactly one more value, the one the source operators mean by the arithmetic of Meaning, and the source's effects |
| SimulateExp.SimShort | compiler/semantics/expression.c:3792-3845 | Boolean AND/OR: a deciding first operand skips the second |
| SimulateExp.ShortEval | compiler/semantics/expression.c:3792-3820 | When the first operand decides, it is the result and the second has no effect |
| SimulateExp.SimSel | compiler/semantics/expression.c:3111-3210 | Selection runs exactly one arm |
| SimulateExp.SimCall | compiler/semantics/expression.c:2736-2987 | A call gets the arguments and NULL for the missing ones, of which there may be 255 |
| SimulateExp.CallStep | interpreter/prima/pm_processor.cpp:431-444 | The call takes the declared number of values and leaves one |
| SimulateExp.MissingExact | compiler/semantics/expression.c:2945-2966 | The declared number of values is on the stack if and only if at most 255 are missing |
| SimulateExp.TooManyMissing | compiler/semantics/expression.c:2945-2966 | A call of a procedure with 256 parameters and no arguments pushes no NULL and does not find its values |
| SimulateExp.JumpsOn | interpreter/prima/pm_processor.cpp:1025-1117 | A conditional jump is taken on its own truth value only, never on NULL; JF and JT keep the value |
| SimulateExp.BinaryStep | interpreter/prima/pm_processor.cpp:472-1018 | A two-operand instruction takes two values and leaves one; the second is not read when the first is NULL, except for equality |
| SimulateExp.StoreStep | interpreter/prima/pm_processor.cpp:312-328 | A store writes through the reference below and leaves it |
| SimulateCopy.FieldStored | compiler/semantics/table_stmts.c:382-424 | The store of a field copy converts to the left field's type |
| SimulateCopy.SimField | compiler/semantics/table_stmts.c:382-424 | One field is copied from row to row through the four operand slots and leaves one value |
| SimulateCopy.SimCopy | compiler/semantics/table_stmts.c:326-338 | A row copy is exact; its values are all dropped if and only if at most 251 fields were copied |
| SimulateCopy.TooManyFields | compiler/semantics/table_stmts.c:326-338 | After 252 fields nothing is dropped |
| SimulateStmt.SimStmt | compiler/semantics/brlo_stmts.c:149-729 | Every statement's code, wherever it stands, does what the statement means and ends at the byte after it or at the loop's targets |
| SimulateStmt.SimWhile | compiler/semantics/brlo_stmts.c:474-559 | WHILE, for every number of rounds |
| SimulateStmt.SimUntil | compiler/semantics/brlo_stmts.c:561-635 | UNTIL runs the body and repeats while the condition is true |
| SimulateStmt.SimFor | compiler/semantics/brlo_stmts.c:283-472 | FOR, with CONTINUE going to the step expression |
| SimulateStmt.SimForeach | compiler/semantics/brlo_stmts.c:339-472 | FOREACH, with BREAK landing on the instruction that drops the iterator |
| SimulateStmt.StartStep | interpreter/prima/pm_processor.cpp:1384-1403 | The start of an iteration; a NULL container stays on the stack |
| SimulateStmt.SimChain | compiler/semantics/brlo_stmts.c:149-280 | IF chains |
| SimulateStmt.SimDeclare | compiler/semantics/expression.c:1474-1568 | The first assignment to a name stores to the slot the name then has |
| Limits.StmtFits | compiler/semantics/brlo_stmts.c:205 | No jump is longer than the code and every operand fits its field in a unit of ordinary size |
| StackDepthRun.DepthOfPosition | compiler/semantics/brlo_stmts.c:424-469 | One table of depths fits every run of a body whose calls leave out at most 255 arguments each: the program counter is at an instruction start and the stack is as high as the table says there |
| StackDepthStmt.StmtDepth | compiler/semantics/brlo_stmts.c:149-729 | Every statement restores the depth on every path, BREAK and CONTINUE included |
| StackDepthStmt.CopyPiece | compiler/semantics/table_stmts.c:250-338 | A row copy of at most 251 fields restores the depth |
| StackDepthStmt.ForeachDepth | compiler/semantics/brlo_stmts.c:458-469 | FOREACH keeps one value more inside and drops it at the end, also after BREAK |
| StackDepthCode.ExpPiece | compiler/semantics/expression.c:3722-3845 | Every expression adds one value on every path |
| StackDepthCode.CallPiece | compiler/semantics/expression.c:2771-2973 | W_CALL finds exactly the declared number of values when at most 255 arguments are left out |
| Disassembler.OperandWidths | compiler/wod/wod_decoder.cpp:139-500 | How many operand bytes the instructions of compiled code have |
| Bytes.FromLeDigits | utils/include/endianness.h:50-100 | Each byte of a word counts 256 times as much as the one before |
| Disassembler.DumpCode | compiler/wod/wod_dump.cpp:402-449 | The walk lists the instructions and stops exactly at the end, or fails on an invalid one |
| Disassembler.ParseExact | compiler/wod/wod_decoder.cpp:95-553 | The walk finds a list if and only if the bytes are its encoding |
| Disassembler.DumpCompiled | compiler/wod/wod_dump.cpp:402-449 | The dump of every compiled procedure is the emitted instruction list |
| Disassembler.JumpsLand | compiler/wod/wod_dump.cpp:402-449 | In every accepted body, every jump target is an instruction start or the end of the code |
| Returns.ReturnFlagExact | compiler/semantics/brlo_stmts.c:225-280 | Without loops the flag is raised if and only if no path falls off the end |
| Returns.NoFlagEscapes | compiler/semantics/procdecl.c:363-374 | A refused body does have a path that leaves it without RETURN |
| Returns.FlagInLoop | compiler/semantics/expression.c:3902-3903 | A RETURN in a loop that may run zero times raises the flag although a path falls off |
| Returns.WalkCan | compiler/semantics/brlo_stmts.c:225-280 | A path ends only in ways that can be read off the statement |
| Returns.CanWalk | compiler/semantics/brlo_stmts.c:225-280 | Each of these ways is the end of some path |
| Returns.FallsExact | compiler/semantics/brlo_stmts.c:225-280 | For every statement, loops included, no path falls off the end if and only if the statement says so |
| ReturnSafety.ExecPossible | compiler/semantics/brlo_stmts.c:225-280 | Every execution ends in a way read off the statement |
| ReturnSafety.FallsOnPath | compiler/semantics/procdecl.c:363-374 | A run falls off the end only if some path does |
| ReturnSafety.CheckedNeverFalls | compiler/semantics/procdecl.c:363-374 | A loop-free procedure that passes the check never falls off its end |
| ReturnSafety.CheckedMayFall | compiler/semantics/procdecl.c:363-374 | A body with a loop that passes the check and always falls off |
| Typing.EvalTyped | compiler/semantics/expression.c:3722-3845 | A value has its static type, and evaluation keeps variables and arrays well typed: always by the family of the type, and by its exact range when every operator, literal and arm in the expression is one whose types keep it |
| Typing.BinTyped | compiler/semantics/expression.c:570-1416 | On operands of the accepted types an operator fails if and only if it divides by zero, or divides -2^63 by -1 as signed numbers, which C++ leaves undefined |
| Typing.ConvertTyped | compiler/semantics/expression.c:1570-1662 | A stored value gets the variable's type |
| Typing.CommonSub | compiler/semantics/expression.c:3022-3109 | The common type of two arms covers both, except an undetermined arm beside another |
| Typing.WidthLost | compiler/semantics/expression.c:518-549 | An instance: the complement of a UINT8 is typed UINT8 and is negative |
| Typing.UndeterminedArm | compiler/semantics/expression.c:3022-3109 | An instance: an undetermined arm lets a value of another type through |
| Ranges.NumRangeExact | compiler/semantics/expression.c:570-1416 | The number an operator computes is one of its static result type if and only if: sum and difference of unsigned operands stay below 2^63, and the top bit of a bitwise result is 0 |
| Ranges.NotRangeExact | compiler/semantics/expression.c:518-549 | The complement of a number is one of the operand's type if and only if the type is signed or the number is at least 2^63 |
| Ranges.TypesKeepExact | compiler/semantics/expression.c:570-1416 | The operand types alone decide exactly whether every result of an operator is one of its static type |
| TypeLimits.KeepsExact | compiler/semantics/expression.c:3022-3109 | The same for literals, complements and the arms of a selection: an undetermined arm beside another type, and nothing else, lets strange values through |
| TypeLimits.SoundExact | compiler/semantics/expression.c:3722-3845 | A set of operator, literal and arm uses is sound for all expressions, stores and calls if and only if each legal use in it is one its types keep |
| TypeLimits.HarmfulUnharmed | compiler/semantics/expression.c:3722-3845 | That is exact for sets of uses, not for one expression: an expression with a harmful use can stay in range for every store |
| TypeLimits.HandedExact | compiler/semantics/expression.c:3918-3980 | Arguments and results are not converted: all values of the accepted type have the declared one if and only if the declared type is at least as wide |
| ConstantPool.Add | compiler/semantics/statement.c:497-533 | The returned offset holds the text, and the area only grows |
| ConstantPool.AllHold | compiler/semantics/statement.c:497-533 | Every offset ever returned keeps addressing its zero-terminated text |
| ConstantPool.SharedExact | compiler/semantics/statement.c:513-520 | A text is appended exactly when it stands nowhere |
| ConstantPool.HoldsReads | interpreter/prima/pm_processor.cpp:1182-1204 | Reading from the offset up to the zero byte gives the text |
| RowFields.FindByName | compiler/semantics/expression.c:147-171 | The first field of that name |
| RowFields.FieldsFromIds | compiler/semantics/table_stmts.c:94-150 | The named fields in order, or failure when one is missing |
| RowFields.RemoveAt | compiler/semantics/table_stmts.c:183-189 | Moving the later entries down removes one entry |
| RowFields.FieldsFromLeft | compiler/semantics/table_stmts.c:152-212 | The filter ends, and pairs every kept field with the other table's field of its name |
| RowFields.SharedPairsExact | compiler/semantics/table_stmts.c:152-212 | The kept list is the original restricted, in order, to the names the other table has |
| DeclIds.ResolveExact | compiler/parser/whaisc.c:169-193 | An assigned id resolves to the declaration that has it |
| DeclIds.IdsCover | compiler/parser/whaisc.c:137-142 | Exactly the ids below the count resolve |
| DeclIds.SwapKeeps | compiler/semantics/procdecl.c:264-281 | Swapping two table entries changes no id and no declaration |
| UnitTables.Procedures.FindProcDecl | compiler/semantics/procdecl.c:33-68 | Finds a name, and gives it exactly the next id on its first reference |
| UnitTables.Procedures.InstallProcDecl | compiler/semantics/procdecl.c:178-296 | Declares or defines a procedure; the table by names afterwards is fully determined, ids already assigned stay |
| UnitTables.Procedures.ProcedureGet | compiler/parser/whaisc.c:169-193 | Looks an id up |
| UnitTables.Procedures.CompileUnit | compiler/semantics/procdecl.c:33-296 | One result for each operation, an id exactly for a reference to a name declared by then; the name still has that id at the end and alone has it; ids never change, exactly the declared names are known, the ids are 0 to count-1, and the final table is the one of a run by names |
| UnitTables.Globals.FindDeclaration | compiler/semantics/statement.c:127-202 | The same for a global variable |
| UnitTables.Globals.AddDeclaration | compiler/semantics/vardecl.c:163-301 | Declares or defines a global; the table by names is fully determined, a referred one keeps its id |
| UnitTables.Globals.GetVar | compiler/parser/whaisc.c:89-111 | Looks a global's id up |
| UnitTables.Globals.CompileUnit | compiler/semantics/vardecl.c:130-301 | The same for globals |
| FieldLists.HasField | compiler/semantics/vardecl.c:398-415 | Whether the name is taken |
| FieldLists.FindPlace | compiler/semantics/vardecl.c:431-465 | The place where the linked list stays sorted |
| FieldLists.AddFieldDeclaration | compiler/semantics/vardecl.c:382-471 | The relinked list holds the fields with the new one inserted in order; a taken name or an undetermined type is refused |
| FieldLists.DeclareFields | compiler/semantics/vardecl.c:382-471 | A table type is accepted exactly when no field name repeats and no type is undetermined, and its list is then sorted |
| FieldLists.ComparesOrder | compiler/semantics/vardecl.c:434-438 | The comparison is the order byte by byte, a prefix first |
| FieldLists.DeclareSorted | compiler/semantics/vardecl.c:427-465 | The list is strictly sorted and holds exactly the declared fields |
| FieldLists.OrderIndependent | compiler/semantics/vardecl.c:429-465 | The list does not depend on the order of declaration |
| FieldLists.AreTableFieldsIncluded | compiler/semantics/expression.c:2990-3019 | The forward pass as a loop |
| FieldLists.IncludedExact | compiler/semantics/expression.c:2990-3019 | On sorted lists the pass decides inclusion exactly |
| FieldLists.DeclaredInclusion | compiler/semantics/expression.c:2990-3019 | The same for tables declared in any order |
| FieldLists.CompatibleExact | compiler/semantics/expression.c:1419-1472 | One table fits another exactly when every field finds a storable one of its name |
| TypePool.TypeSpecFill | compiler/semantics/statement.c:315-432 | The written descriptor: type, size filled in afterwards, fields, end mark |
| TypePool.SizedExact | compiler/semantics/statement.c:367-368 | The two-byte size is right if and only if the data is shorter than 65536 bytes |
| TypePool.OversizedSteps | compiler/semantics/statement.c:309 | A table with 65536 bytes of data is written with size 0 and a search steps into it |
| TypePool.ValidExact | utils/src/wtypes.c:101-185 | A written descriptor passes the library's test if and only if its type and the types of its fields are legal |
| TypePool.LegalExact | utils/src/wtypes.c:101-185 | Legal are the seventeen base types, fields and arrays of them, and tables of fields of them |
| TypePool.Pool.FindTypeSpec | compiler/semantics/statement.c:286-313 | The search visits each record's start once, stops at the first equal or unacceptable record, and otherwise ends exactly at the end of the stream |
| TypePool.Pool.FillTypeSpec | compiler/semantics/statement.c:435-495 | A known descriptor keeps its offset, a new one is appended; it fails only when an unacceptable record comes before |
| TypePool.Pool.FillAll | compiler/semantics/statement.c:435-495 | Legal descriptors are never refused, offsets stay valid, and two descriptors share one exactly when they are equal |
| TypePool.DumpTableTypeInf | compiler/wod/wod_dump.cpp:296-331 | The dumper's loop over a table descriptor |
| TypePool.DumpExact | compiler/wod/wod_dump.cpp:313 | The dump gives back the fields if and only if no name has one byte or starts with the end mark |
| Numerals.IntoAscii | compiler/wod/wod_decoder.cpp:42-66 | The text filled in from the buffer's end |
| Numerals.ReadInteger | compiler/parser/yy.c:365-444 | The lexer's integer loop with sign, base and suffix |
| Numerals.IntegerRoundTrip | compiler/parser/yy.c:365-444 | Reading a printed integer gives the same 64-bit word, signed or unsigned, -2^63 included |
| Numerals.WrittenIntegerRead | compiler/parser/yy.c:365-444 | Every 64-bit word written in base ten or, after 0x or 0X, in base sixteen with small or capital letters, with or without a minus sign, is read as that word or its negative; u or U makes it unsigned, s or S signed, one more character is taken and the value stays |
| Numerals.ReadReal | compiler/parser/yy.c:446-517 | The lexer's loops over a real literal |
| Numerals.ParsedLiteral | compiler/parser/yy.c:469-514 | What is stored for every literal, and how many characters are taken |
| Numerals.FracIntToAscii | compiler/wod/wod_decoder.cpp:68-82 | Eighteen zero-padded digits |
| Numerals.RealExact | compiler/wod/wod_decoder.cpp:290-312 | The printed fraction is the literal's if and only if the literal has at most 17 fraction digits or they are all zero |
| Numerals.PrintedExact | compiler/wod/wod_decoder.cpp:290-312 | Reading a real literal and printing it gives a text of the same rational number, sign and "-0.x" included, if and only if the literal has at most 17 fraction digits or all of them are zero |
| Connector.PushableExact | client/src/connector.c:1224-1268 | What can be pushed: a plain type or an array of one, or a table whose fields all have a name and such a type |
| Connector.ComputePushSpaceNeed | client/src/connector.c:1224-1269 | The space computed is the number of bytes written, and 0 exactly for what cannot be pushed |
| Connector.WritePushCmd | client/src/connector.c:1271-1302 | The push command is written in place and nothing else changes |
| Connector.Connection.Flush | client/src/connector.c:2124-2170 | The waiting commands go out in one frame and nothing is waiting afterwards; which status results |
| Connector.Connection.Reserve | client/src/connector.c:1328-1342 | There is room for the command, after a flush if need be |
| Connector.Connection.Append | client/src/connector.c:1344-1360 | The command joins the waiting ones |
| Connector.Connection.PushValue | client/src/connector.c:1304-1361 | Adds one push to the accepted commands, or says exactly why not |
| Connector.Connection.PopValues | client/src/connector.c:1363-1414 | Adds one pop, or says exactly why not |
| Connector.Connection.AddTableRows | client/src/connector.c:2067-2121 | Adds one row command, or says exactly why not; zero rows need none |
| Connector.PayloadsConserve | client/src/connector.c:2124-2170 | The payloads taken are the encodings of the commands in them, in order and unsplit |
| Connector.RunAll | client/src/connector.c:1304-1414 | A sequence succeeds if and only if every command can be added and every frame that has to be sent on the way is taken; then the sent payloads and the waiting bytes are its encoding |
| Connector.RunSucceeds | client/src/connector.c:1304-1414 | With a server that takes every frame a sequence fails only for a command that can never be added |
| CommandReader.PushStack | server/common/stack_cmds.cpp:82-325 | The server's reading of a pushed value, field after field, with every refusal |
| CommandReader.UpdateStack | server/common/commands.cpp:334-385 | The server's loop over the commands of one frame |
| CommandReader.ServerReads | server/common/commands.cpp:334-385 | The server reads exactly the commands that were encoded, in order, up to the first array of texts; the fields of a table come in the opposite order |
| CommandReader.BytesDiffer | client/src/connector.c:1271-1302 | Different lists of commands have different bytes |
| CommandReader.FramesRead | client/src/connector.c:1304-1414 | Every frame the server took gives it back the commands that were put into it |
| CommandReader.RunRead | client/src/connector.c:1304-1414 | What the server took in a run followed by what waits gives the run's commands back |
| CommandReader.CommandBytes | client/src/connector.c:1403-1407 | Instances: the bytes of a pop of 3 values, of 258 rows and of a pushed array |
| PagedListing.Client.ListGlobals | client/src/connector.c:657-707 | One request for the names from a hint on, or the error status the server answers |
| PagedListing.Client.StartGlobalsList | client/src/connector.c:710-732 | Starts at the first name and gives the number of names |
| PagedListing.Client.FetchGlobal | client/src/connector.c:735-804 | The next name, with a new request when the frame is used up, or NULL at the end; an error status ends the list |
| PagedListing.Client.FetchAll | client/src/connector.c:735-804 | All names in order, each once, then NULL, whatever the sizes of the pages |

## Left out

- Raw memory: the code stream is one growable byte sequence; allocation
  failures and the message texts reduce to a failed call. The C code takes the
  address of the stream before it appends the jump back; that is not modelled.
- The parser: the model starts from syntax trees and calls the semantic
  functions in the order the grammar's actions do. The grammar never reaches
  `begin_elseif_stmt`; it is modelled all the same.
- Expressions of type CHAR, DATE, DATETIME, HIRESTIME, REAL, RICHREAL and TEXT,
  table values, field expressions, casts, array constructors and the combined
  assignments; the array operators `+`, `-` and `%`; `OP_NEGATIVE`.
- CodeGenerator.Generator.TranslateTree: those kinds of expressions are absent.
- CodeGenerator.Generator.TranslateLeaf: constants of those types and global
  variables are absent.
- CodeGenerator.Generator.TranslateOffset: the offset of a field is absent.
- CodeGenerator.Generator.TranslateOpcode: the operators on those types and the
  combined assignments are absent.
- CodeGenerator.Generator.TranslateSelect: common types of those types are absent.
- CodeGenerator.Generator.TranslateArgs: field arguments are absent.
- CodeGenerator.Generator.TranslateCall: field arguments are absent.
- CodeGenerator.Generator.TranslateReturn: field results are absent.
- CodeGenerator.Generator.TranslateAutoStore: first assignments of tables, fields
  and undetermined values are refused.
- CodeGenerator.Generator.BeginForeach: field and text containers are absent.
- Stores of tables, fields and undetermined values (`W_STTA`, `W_STF`,
  `W_STUD`): an assignment of such a type is refused by the model.
- Global variables in expressions: their ids are modelled in `UnitTables`, the
  instructions that load them are not.
- SYNC statements and the dead-statement, sign-comparison and similar warnings,
  which do not stop a compilation.
- Called procedures are an arbitrary function of the argument values and the
  arrays and tables; arguments passed by reference do not change the caller's
  locals.
- Signed 64-bit overflow of sums, differences and products in the interpreter is
  taken as wrap-around; the division of -2^63 by -1 counts as a failure.
- The value a procedure returns is compared as it stands; the interpreter's
  replacement of an untyped NULL by the declared default is not modelled.
- The source semantics counts loop rounds as fuel so that it is a total
  function; the theorems quantify over every fuel.
- Correctness.ProcedureCorrect: for units with less than 2^31 bytes of code,
  less than 2^31 locals, and constant area and procedure table of at most 2^32
  entries, since operands have four bytes; for bodies whose calls leave out at
  most 255 arguments each and whose row copies have at most 251 fields, limits
  that are proved exact.
- Typing.EvalTyped: its statement is about expressions, not about row copies; an
  undetermined value is taken to be a scalar.
- CodeGenerator.Generator.PatchExits: the source repeats this scan in three
  functions; it is written once here, and the assertions that forbid a CONTINUE
  entry outside UNTIL are consequences of the loop stack's shape.
- The assertions on the displaced entry in `install_proc_decl` are not
  modelled; a referred extern that gets defined can break them, the ids stay
  right all the same.
- The test of a descriptor and its comparison read records of the pool only,
  whose size field is right; what they do with a wrong size is not modelled.
- The connector's updates of values and the coalescing of text and array
  updates, the content of frames other than stack commands, encryption, sockets
  and the server. What the server answers is a parameter.
- Connector.Connection.Flush: the handler's field never names another command
  than the stack update (its only assignments are at client/src/connector.c:1358,
  1411, 2061, 2118 and 2151), so the branches for one are not modelled.
- Numerals.RealExact: the overflow of an integer part that does not fit 64 bits,
  which C leaves undefined.
- Numerals.PrintedExact: the same overflow.
- Numerals.ReadReal: the same overflow.
- CommandReader.UpdateStack: the update of the value on top is one more command
  there; what the commands do to the server's stack, and the refusal of rows for
  an empty stack or for another value than a table, are not modelled.
- CommandReader.PushStack: a name without a terminating zero is read on behind
  the frame there; here the frame counts as broken.
- PagedListing.Client.FetchGlobal: lost and malformed frames.
- The listing of procedures works like that of globals and is not repeated.
