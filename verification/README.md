# A verified model of gel's compiler, virtual machine and collector

gel is a small Lisp. This project models the way a gel program goes from its
expression tree to a result, and the collector that manages the heap underneath,
in Dafny:

* the graph builder, whose visitors link instruction nodes in place,
* the graph compiler and the assembler, which write byte code into a fixed
  buffer, thread unresolved jumps as a list through that buffer and patch them
  when their label is bound,
* the interpreter and the run-time system: operand stacks, frames, scopes, the
  calling convention,
* constant folding, scopes and parameter slots, macro expansion,
* the copying collector, with tags kept in bit fields.

The main result joins the first three: a call of a compiled lambda returns
exactly when the big-step evaluation of its body does, with that value, and
crashes exactly when the evaluation crashes, for calls nested to any depth
(`Correctness.CallCorrect`). It asks that no list the compiler takes for a
constant mentions a variable; `Quoting.QuotedCallCorrect` says without that what
the code does, which is to take the variable's name for its value. `EndToEnd`
compiles every lambda of a program with
the modelled compiler, shows that the memory it makes is one the results speak
about, and calls a lambda from outside.

## How the files fit together

| file | content |
|---|---|
| `Sequences`, `Words`, `Values`, `Operators` | parts of sequences; bytes and 64-bit words; values, operators and their laws |
| `Bytecode` | opcodes, emitted bytes, the two decoders |
| `Layout`, `Assembler`, `Labels` | what a sequence of assembler calls writes, one-pass and two-pass; the assembler's classes; what binding and jumping do |
| `Source`, `Folding` | expressions, statements, their evaluation; constant folding |
| `Emission`, `Blocks`, `Landings` | the trace of a lambda body; how it uses labels; where its jumps land |
| `FlowGraph`, `FlowGraphBuilder`, `FlowGraphCompiler` | linked instruction nodes, the visitors that build them, the traversal that compiles them |
| `Machine`, `Calls`, `Meanings`, `Interpreter` | the run-time system as functions; properties of calls of any code; what jumps, `cond` and invokes choose; the run-time system as a class with loops, proved equal to the functions |
| `Placement`, `Paths`, `Simulation`, `Expressions`, `Statements`, `Correctness`, `Theorems` | the proof that compiled code does what the source means |
| `Quoting` | what code means whose constant lists mention variables |
| `EndToEnd` | compiling a whole program and calling it |
| `Scopes` | local scopes, slots of parameters |
| `Macros` | macro expansion |
| `Bits`, `Copying`, `Collector` | bit fields, rounding, buffers; the collector |

Names used below: a *trace* is the list of calls made on the assembler; `Crash`
stands for a failed assertion (those on `IsAtom` are left out, see below), a
fatal log message, a division by zero or a call through a null pointer; `fuel` bounds how deep calls nest (in `Source`) or how
many instructions and calls a run makes (in `Machine`), and a run that needs more
is a `Timeout`. Results are stated for all fuels.

Where the code does something a reader may not expect, the model follows the code:

* `jnz` jumps when the value is *not* true (Sources/gel/interpreter.cc:97-103).
* `Jump` to a label that is already bound lands one byte past it, and fails its
  assertion when the label is bound at the very place of the jump; the exact
  conditions are in `Labels.JumpLandsIff`.
* Only arithmetic operators fold; a comparison in a constant list stops the
  compiler (`Folding.ComparisonDoesNotFold`).
* A symbol counts as a constant, so a list of literals and variables is folded to
  a list that holds the variables' names: a function of `x` with the body `(1 x)`
  returns the symbol, not its argument (`Quoting.VariableListReturnsName`). When
  folding a list gives its value is `Folding.FoldingMatchesIff`.
* A string equals the symbol of its name; the symbol does not equal the string
  (`Operators.StringEqualsSymbol`).
* A call with too many arguments leaves the first ones on the caller's stack
  (`Theorems.ExcessArgsStay`).
* The slots of a call's scope carry the parameters' names in reverse
  (`Scopes.ParameterSlots`).
* `=` on lists can end in a call through a null pointer, as it does on two equal
  lists: exactly when it does is `Operators.EqualsReturns` for any two values,
  `Operators.EqualListsCrash` for lists, `Operators.AtomListsCrash` for lists of
  numbers, strings and Bools.
* The collector copies a root without looking at its forwarding address and does
  not write new addresses into the slots of copies (`Collector.CopiedOnceIff`
  with its instance `Collector.RootTwice`, `Collector.SlotsStayOld`).
* The zone's own iterator begins at the start of the zone even when the second half
  is in use; after the first collection it leaves the objects
  (`Collector.ZoneWalkIff`, `Collector.FirstCollectionBreaksWalk`). The iterator of
  `Semispace` would begin in the right place (`Collector.WalkVisitsCopies`), but
  nothing makes a `Semispace`.
* A macro's parameter that is passed on to another macro survives the expansion as
  a name (`Macros.NestedExpansionIff`, `Macros.OuterNameSurvives`).

## Model

| member | source | states |
|---|---|---|
| Words.WordRoundTrip | Sources/gel/assembler_base.h:105-120 | a word stored in the buffer and loaded again is the word, signed or unsigned |
| Words.SmallWord | Sources/gel/assembler_base.h:105-120 | the low byte of a word comes first |
| Operators.SubtractUndoesAdd | Sources/gel/object.cc:284-304 | addition and subtraction on `uint64_t` undo each other, wrapped or not |
| Operators.MultiplyAddsAgain | Sources/gel/object.cc:284-304 | wrapping multiplication is repeated wrapping addition |
| Operators.DivisionIsExact | Sources/gel/object.cc:284-304 | quotient and remainder make up the dividend; only zero as divisor crashes |
| Operators.ComparisonsOrder | Sources/gel/interpreter.cc:205-228 | the comparisons are the order of unsigned numbers and crash on anything else |
| Operators.EqualsDecides | Sources/gel/object.cc:370-375 | when `=` returns, on values without procedures, it decides equality, but for strings on the left, which equal the symbols of their names |
| Operators.StringEqualsSymbol | Sources/gel/object.cc:400-407 | a string equals the symbol of its name, and not the other way round |
| Operators.EqualsReturns | Sources/gel/object.cc:370-375 | for any two values, `=` returns if and only if walking both from the left meets, up to the first difference, no Null that cannot be compared; it says yes if and only if they are the same, up to strings and symbols, and hold neither Null nor a procedure |
| Operators.EqualListsCrash | Sources/gel/object.cc:370-375 | comparing two lists crashes if and only if they agree up to a place where the comparison gets stuck: an end, or elements that cannot be compared |
| Operators.AtomListsCrash | Sources/gel/object.cc:370-375 | for lists of numbers, strings and Bools: if and only if the left one is the start of the right one, or the right one is the start of the left one and a Bool follows |
| Operators.ConsTakenApart | Sources/gel/object.h:718-728 | `car` and `cdr` give back what `cons` has put together |
| Operators.ConsExtends | Sources/gel/interpreter.cc:229-233 | `cons` puts its left operand in front of a list |
| Operators.ElementOfList | Sources/gel/object.h:718-728 | `car` after `i` times `cdr` of a list is its element `i`; after its length the rest is Null |
| Operators.TakenFrom | Sources/gel/object.h:718-728 | `car` and `cdr` of Null are Null, and they crash exactly on what is neither a pair nor Null |
| Operators.UnaryAnswers | Sources/gel/interpreter.cc:245-283 | `not` is #T on Null and #F and #F on everything else; `null?` and `nonnull?` ask for Null |
| Operators.LogicDecides | Sources/gel/object.cc:209-215 | a Bool on the left decides `and` and `or` or leaves them to the truth of the right operand; anything else on the left gives Null |
| Operators.DeMorgan | Sources/gel/object.cc:209-215 | De Morgan's law for a Bool on the left and any value on the right |
| Operators.ArithmeticOnOthers | Sources/gel/object.cc:284-304 | arithmetic on anything but two numbers gives Null |
| Operators.NoClasses | Sources/gel/interpreter.cc:234-239 | InstanceOf crashes unless its right operand is a class, which no value of the model is |
| Bytecode.OpcodeNumbers | Sources/gel/bytecode.h:7-43 | the numbers of the opcodes |
| Bytecode.PushNumbers | Sources/gel/bytecode.h:7-43 | those of the pushes |
| Bytecode.ObjectNumbers | Sources/gel/bytecode.h:7-43 | those for classes, fields and exceptions |
| Bytecode.LocalNumbers | Sources/gel/bytecode.h:12-21 | local indices up to 3 have opcodes of their own |
| Bytecode.OperatorNumbers | Sources/gel/expression.h:446-451 | those of jumps, unary and binary operators |
| Bytecode.BuildInverts | Sources/gel/assembler_vm.h:88-195 | opcode and operands determine the instruction, short and long local forms included |
| Bytecode.FetchEncoded | Sources/gel/interpreter.h:28-52 | an emitted instruction is read back, with its length, wherever it lies |
| Bytecode.DecodeEncode | Sources/gel/assembler_vm.h:88-195 | decoding the bytes of any sequence of emitter calls gives that sequence |
| Bytecode.DecodersAgree | Sources/gel/disassembler_vm.cc:69-183 | interpreter and disassembler advance equally on every opcode, and the valid opcodes are those the interpreter knows |
| Bytecode.Disassemble | Sources/gel/disassembler_vm.cc:69-183 | the disassembler's loop lists exactly the instructions of decodable code |
| Layout.EmittedDecodes | Sources/gel/assembler_vm.cc:23-27 | what is assembled from any sequence of emitter calls decodes to exactly the instructions emitted |
| Layout.PendingDecreases | Sources/gel/assembler_vm.cc:16-21 | the jumps waiting for a label are jumps to it, at strictly decreasing positions |
| Layout.PendingIsThreaded | Sources/gel/assembler_vm.cc:16-21 | each waiting jump word encodes the next one, zero ends the list |
| Layout.LinkStates | Sources/gel/assembler_vm.cc:29-40 | a jump word holds the offset to its bound label or is still on the label's list |
| Layout.BackPatchingIsTwoPass | Sources/gel/assembler_vm.cc:6-40 | when every label is bound once, one pass with patching gives the bytes of a two-pass assembler |
| Assembler.AssemblerBuffer.EmitWord | Sources/gel/assembler_base.h:105-109 | appends the eight bytes of a word |
| Assembler.AssemblerBuffer.StoreAt | Sources/gel/assembler_base.h:116-120 | replaces the word at a position and nothing else |
| Assembler.Assembler.EmitOp | Sources/gel/assembler_vm.h:38-40 | appends an opcode; the buffer is that of the longer trace |
| Assembler.Assembler.EmitLabel | Sources/gel/assembler_vm.cc:6-14 | appends a reference to a label, bound or not, and keeps the label's word right |
| Assembler.Assembler.EmitLabelLink | Sources/gel/assembler_vm.cc:16-21 | puts the new jump word at the head of the label's list |
| Assembler.Assembler.ReplaceLink | Sources/gel/assembler_vm.cc:33-37 | one turn of the binding loop: patches one waiting jump and yields the next, strictly lower position |
| Assembler.Assembler.Bind | Sources/gel/assembler_vm.cc:29-40 | follows the list through the buffer to its end; the buffer is that of the trace with the label bound |
| Assembler.Assembler.Jump | Sources/gel/assembler_vm.cc:42-53 | the trace after a jump, with the offset of a bound label taken before the opcode, or the failed assertion with nothing written |
| Assembler.Assembler.LoadLocal | Sources/gel/assembler_vm.h:179-186 | short or long form, the same instruction |
| Assembler.Assembler.StoreLocal | Sources/gel/assembler_vm.h:188-195 | short or long form, the same instruction |
| Assembler.Assembler.Push | Sources/gel/assembler_vm.h:139-150 | Null, numbers and Bools have opcodes of their own, anything else goes by address |
| Assembler.Assembler.Assemble | Sources/gel/assembler_vm.cc:23-27 | the code region holds the bytes of the trace |
| Labels.PendingIsAllLinks | Sources/gel/assembler_vm.cc:16-21 | the list of an unbound label holds all jumps to it |
| Labels.BindEffect | Sources/gel/assembler_vm.cc:29-40 | binding sets every waiting jump word to the distance from its opcode to the bound place, and changes no other byte |
| Labels.EmitLabelLands | Sources/gel/assembler_vm.cc:6-21 | opcode plus label reference lands on the label, bound before or after |
| Labels.JumpLandsIff | Sources/gel/assembler_vm.cc:42-53 | `Jump` fails its assertion if and only if the label is bound at the place of the jump; otherwise it lands on its label if the label is not bound when the jump is emitted, and one byte past it if it is |
| Labels.BackwardJumpMisses | Sources/gel/assembler_vm.cc:42-53 | a backward `Jump` from byte 1 to a label at byte 0 that lands on byte 1 |
| Source.EvalToConstant | Sources/gel/expression.cc:424-435 | folding, symbols to themselves, the list built from its last child to its first, gives the folded value |
| Source.FoldingPreservesMeaning | Sources/gel/flow_graph_builder.cc:742-761 | what folds, and mentions no symbol that stands for something else, evaluates to the folded value, for any locals |
| Folding.ArithmeticFolds | Sources/gel/expression.cc:94-114 | with arithmetic only, folding gives what evaluation gives when every symbol reads as itself, crashes included |
| Folding.LiteralsFold | Sources/gel/expression.cc:101-114 | two literals under one of the five arithmetic operators fold to what the operator gives at run time; under any other they do not fold |
| Folding.OthersCrash | Sources/gel/expression.cc:100-114 | any other operator makes folding crash |
| Folding.FoldingMatchesIff | Sources/gel/expression.cc:405-435 | for any locals, a constant expression with a value folds to it if and only if all its operators are arithmetic and each symbol reads as itself or is an operand of an operator that does not get two numbers; to mention no variable is enough, and in a list without operators each must read as itself |
| Folding.VariableFoldsToItsName | Sources/gel/expression.h:290-296 | the list of 1 and a variable compiles to one push of the list of 1 and the variable's name |
| Folding.ComparisonDoesNotFold | Sources/gel/expression.cc:100-114 | the list of `1 < 2` evaluates but does not compile |
| Folding.OkBodyCompiles | Sources/gel/flow_graph_compiler.cc:57-69 | every body the correctness results speak about compiles |
| Blocks.UsesBody | Sources/gel/instruction_vm.cc:149-200 | every block of a compiled body is bound exactly once, only those are jumped to, and every jump comes before its block |
| Blocks.CodeIsTwoPass | Sources/gel/instruction_vm.cc:149-200 | the code of a body is the one computed from the final table of its blocks |
| Landings.WholeDecodes | Sources/gel/interpreter.cc:353-464 | placed code decodes from its first byte to its last |
| Landings.JumpsLand | Sources/gel/instruction_vm.cc:149-200 | the code of a body decodes from its first byte to its last, and every jump instruction met on the way lands further on, before the end of the code, on the start of an instruction |
| Landings.JumpLandsIn | Sources/gel/instruction_vm.cc:149-200 | every jump word of the trace belongs to a jump that decoding meets, and that jump lands so |
| FlowGraph.Instruction.Link | Sources/gel/instruction.h:142-147 | sets both links and nothing else |
| FlowGraph.Instruction.Append | Sources/gel/instruction.cc:9-15 | walks to the end of the chain and links the instruction there |
| FlowGraph.JoinOpen | Sources/gel/flow_graph_builder.h:165-174 | linking a chain to the exit of a fragment continues it there, inside the join of its last branch if there is one |
| FlowGraph.JoinTop | Sources/gel/flow_graph_builder.cc:66-72 | appending to an entry continues the chain after its last node, after a branch and not inside its join |
| FlowGraphBuilder.FlowGraphBuilder.GetNextBlockId | Sources/gel/flow_graph_builder.h:45-49 | hands out the next block id |
| FlowGraphBuilder.ValueVisitor.Append | Sources/gel/flow_graph_builder.h:165-174 | links another fragment to the exit; well-formed chain, concatenated trace |
| FlowGraphBuilder.ValueVisitor.Add | Sources/gel/flow_graph_builder.h:132-141 | links one instruction to the exit |
| FlowGraphBuilder.ValueVisitor.ReturnDefinition | Sources/gel/flow_graph_builder.h:263-265 | links a new definition and makes it the value |
| FlowGraphBuilder.ValueVisitor.VisitBinaryOpExpr | Sources/gel/flow_graph_builder.cc:805-822 | left operand, right operand, operator; succeeds exactly on expressions that compile |
| FlowGraphBuilder.ValueVisitor.VisitUnaryExpr | Sources/gel/flow_graph_builder.cc:706-723 | operand, operator |
| FlowGraphBuilder.ValueVisitor.VisitListExpr | Sources/gel/flow_graph_builder.cc:742-761 | a constant list becomes its value, any other list a call of the `list` native on its children |
| FlowGraphBuilder.ValueVisitor.VisitCallProcExpr | Sources/gel/flow_graph_builder.cc:138-154 | the arguments in order, then the invoke of the constant target |
| FlowGraphBuilder.ValueVisitor.VisitTest | Sources/gel/flow_graph_builder.cc:662-684 | an equality test leaves both operands for the branch, any other test its value |
| FlowGraphBuilder.BuildArm | Sources/gel/flow_graph_builder.cc:646-659 | a block: its entry, the visited fragment, the jump to the join |
| FlowGraphBuilder.ValueVisitor.AddBranch | Sources/gel/flow_graph_builder.cc:684-687 | links the branch in; the fragment continues at the join |
| FlowGraphBuilder.ValueVisitor.VisitCondExpr | Sources/gel/flow_graph_builder.cc:639-704 | a `cond` with one clause, one action and an alternate, nested at will, has the trace of its parts around one branch |
| FlowGraphBuilder.ValueVisitor.VisitSetLocalExpr | Sources/gel/flow_graph_builder.cc:878-891 | the operand, then the store; no value |
| FlowGraphBuilder.ValueVisitor.VisitLambda | Sources/gel/flow_graph_builder.cc:960-987 | the statements in order and the return, with Null when the last one leaves no value |
| FlowGraphBuilder.AppendFragment | Sources/gel/flow_graph_builder.cc:66-72 | a visited fragment after an entry node |
| FlowGraphBuilder.Build | Sources/gel/flow_graph_builder.cc:918-936 | builds a well-formed graph of new, distinct nodes whose trace is that of the body, exactly when every statement compiles |
| FlowGraphCompiler.EmitKind | Sources/gel/instruction_vm.cc:25-137 | each simple instruction compiles to its byte code |
| FlowGraphCompiler.FlowGraphCompiler.Jump | Sources/gel/instruction_vm.cc:196-200 | a jump to a block that is not bound yet |
| FlowGraphCompiler.FlowGraphCompiler.AssembleChain | Sources/gel/flow_graph_compiler.cc:19-28 | compiling a chain appends its trace, branches included, whatever was emitted before |
| FlowGraphCompiler.FlowGraphCompiler.CompileBranch | Sources/gel/instruction_vm.cc:149-194 | conditional jump, true block, false block, join, in that order, each bound in its place |
| FlowGraphCompiler.CompileTarget | Sources/gel/flow_graph_compiler.cc:57-81 | fails on an empty body and on one that cannot be visited; otherwise the region holds exactly the code of the body |
| Calls.Convention | Sources/gel/runtime.h:68-105 | which calls can be bound, if and only if; arguments in order, Null for each missing one, the rest of the stack untouched |
| Calls.ListConvention | Sources/gel/runtime.h:68-105 | a vararg native receives all its arguments in order |
| Calls.NextMore | Sources/gel/interpreter.cc:353-464 | the outcome of an instruction or call does not depend on fuel left over |
| Calls.RunFramed | Sources/gel/runtime.cc:109-148 | any code that returns leaves outer frames and scopes as they were |
| Calls.CallTransparent | Sources/gel/runtime.cc:109-148 | for any callee, to any nesting depth: the caller has one more value and nothing else changed, its position included |
| Calls.InvokeTransparent | Sources/gel/interpreter.cc:135-150 | an invoke replaces what it pops by one result, just past its operands |
| Meanings.CondChooses | Sources/gel/object.h:730-735 | a `cond` takes its alternate if and only if its test is Null or #F |
| Meanings.EmptyBody | Sources/gel/runtime.cc:129-130 | a call of a lambda without a body crashes, because it cannot be compiled |
| Meanings.JnzJumps | Sources/gel/interpreter.cc:97-103 | `jnz` pops a value and jumps if and only if it is Null or #F |
| Meanings.JneJumps | Sources/gel/interpreter.cc:104-112 | `jne` pops two values and jumps if and only if `=` does not hold of them; it crashes if they cannot be compared |
| Meanings.NothingThere | Sources/gel/interpreter.cc:42-64 | a slot outside the scope, a constant not on the heap and a missing operand crash, and nothing else does |
| Meanings.OtherJumps | Sources/gel/interpreter.cc:113-118 | `jump` always jumps, `jz` and `jeq` crash |
| Meanings.DynamicInvoke | Sources/gel/interpreter.cc:135-150 | a dynamic invoke pops the procedure and does what the static or native invoke of it does |
| Meanings.WrongCallee | Sources/gel/interpreter.cc:135-150 | a static invoke takes lambdas only, a native one natives only |
| Meanings.WrongCount | Sources/gel/runtime.cc:117-118 | a lambda is called with as many arguments as parameters or not at all |
| Meanings.LeaveEffect | Sources/gel/runtime.cc:135-147 | the end of a call: frame, scope, position, and the value for the caller or as the result |
| Meanings.PopUndoesPush | Sources/gel/interpreter.cc:314-317 | `pop` takes what was pushed and fails on an empty stack; `nop` does nothing |
| Interpreter.Runtime.NextBytecode | Sources/gel/interpreter.h:28-32 | reads one byte and advances |
| Interpreter.Runtime.NextUWord | Sources/gel/interpreter.h:34-38 | reads a word and advances |
| Interpreter.Runtime.PopValue | Sources/gel/operation_stack.h:64-71 | pops the top, or nothing from an empty stack |
| Interpreter.Runtime.PushValue | Sources/gel/operation_stack.h:79-82 | pushes on the innermost frame's stack |
| Interpreter.Runtime.LoadLocal | Sources/gel/interpreter.cc:42-47 | pushes the slot of the innermost scope |
| Interpreter.Runtime.StoreLocal | Sources/gel/interpreter.cc:49-56 | pops into the slot of the innermost scope |
| Interpreter.Runtime.ExecBinaryOp | Sources/gel/interpreter.cc:158-243 | right operand popped first |
| Interpreter.Runtime.ExecUnaryOp | Sources/gel/interpreter.cc:245-283 | replaces the top |
| Interpreter.Runtime.Jump | Sources/gel/interpreter.cc:95-119 | conditional and unconditional jumps; `jz` and `jeq` crash |
| Interpreter.Runtime.PopArgs | Sources/gel/runtime.h:73-104 | the loops of the calling convention compute `CollectArgs` |
| Interpreter.Runtime.CallWithNArgs | Sources/gel/runtime.h:68-105 | collects the arguments and calls |
| Interpreter.ApplyList | Sources/gel/natives.cc:290-298 | consing from the last argument to the first gives the list of the arguments |
| Interpreter.Runtime.Return | Sources/gel/runtime.cc:135-147 | pops frame and scope, hands the top of the stack or Null to the caller, restores the position |
| Interpreter.Runtime.Call | Sources/gel/runtime.cc:109-175 | calls of lambdas and of the `list` native |
| Interpreter.Runtime.Invoke | Sources/gel/interpreter.cc:135-150 | static, native and dynamic calls |
| Interpreter.Runtime.Execute | Sources/gel/interpreter.cc:356-462 | one turn of the loop does what the decoded instruction means |
| Interpreter.Runtime.Run | Sources/gel/interpreter.cc:353-464 | the loop runs to the `ret` of its frame |
| Placement.PlacedJump | Sources/gel/interpreter.cc:438-446 | a placed jump is fetched with the distance from its opcode to its label |
| Paths.RunAlong | Sources/gel/interpreter.cc:353-464 | a run follows a path of single instructions |
| Simulation.ReplacesByCall | Sources/gel/interpreter.cc:135-150 | the invoke of a lambda replaces its arguments by the value of the call |
| Simulation.ReplacesByList | Sources/gel/natives.cc:290-298 | the call of the `list` native replaces the children by their list |
| Expressions.TestMeaning | Sources/gel/flow_graph_builder.cc:662-673 | comparing in the branch is branching on the comparison |
| Expressions.SimVal | Sources/gel/flow_graph_builder.cc:742-822 | the code of a value pushes the value or fails as its evaluation fails |
| Expressions.SimCtl | Sources/gel/flow_graph_builder.cc:639-704 | the same for nested `cond` |
| Statements.SimStmts | Sources/gel/flow_graph_builder.cc:960-980 | statements in sequence: values stay on the stack, assignments change the locals |
| Statements.SimBody | Sources/gel/flow_graph_builder.cc:960-987 | a compiled body arrives at its `ret` with every value left, the result on top and the assigned locals |
| Correctness.RunOfBody | Sources/gel/runtime.cc:133-142 | running a called lambda from its entry gives exactly that final state |
| Correctness.CallsOk | Sources/gel/runtime.cc:109-148 | every call does what the source says, by induction on the depth of calls |
| Correctness.CallCorrect | Sources/gel/runtime.cc:109-148 | a call of a compiled lambda returns a value, or crashes, if and only if the evaluation of its body does |
| Quoting.SameCode | Sources/gel/flow_graph_builder.cc:742-761 | replacing every constant list of a body by the literal it folds to changes no byte of the code |
| Quoting.QuotedBodyCompiles | Sources/gel/flow_graph_compiler.cc:57-69 | every body these results speak about compiles |
| Quoting.QuotedCallCorrect | Sources/gel/runtime.cc:109-148 | with any constant lists, a call of a compiled lambda returns a value, or crashes, if and only if the evaluation of the body with its lists folded does |
| Quoting.SameBody | Sources/gel/flow_graph_builder.cc:742-761 | when constant lists mention no symbol that stands for something else, evaluation with folded lists is evaluation |
| Quoting.VariableListReturnsName | Sources/gel/flow_graph_builder.cc:742-761 | a compiled function whose body is the list of 1 and its parameter returns the list of 1 and the parameter's name for every argument |
| Theorems.ExpressionCorrect | Sources/gel/interpreter.cc:353-464 | placed code of any control expression, from any stack and locals: ends at the byte after it with the value pushed, in at most as many steps as bytes, never popping what was there, not even by the instruction that crashes |
| Theorems.CallFreeStops | Sources/gel/interpreter.cc:353-464 | call-free code returns or crashes within as many steps as it has bytes, positions strictly growing, the caller's part of the stack untouched; the last state is at a `ret`, or its instruction crashes with its operands above that part |
| Theorems.ProgramCorrect | Sources/gel/runtime.h:184-195 | a program called from outside yields the value of the body and no other result |
| Theorems.ExcessArgsStay | Sources/gel/runtime.h:73-98 | with too many arguments the last ones are taken and the others stay below the result |
| EndToEnd.CompileProgram | Sources/gel/flow_graph_compiler.h:80-92 | compiling every lambda, any constant lists included, gives a memory in which the program with its lists folded is linked, and the program itself if its constant lists mention no variable |
| EndToEnd.CallPop | Sources/gel/runtime.h:184-195 | a call on a new run-time system returns what the source evaluates to, given fuel for its calls |
| Scopes.LocalScope.Has | Sources/gel/local_scope.cc:35-41 | finds a name in this scope |
| Scopes.LocalScope.AddLocal | Sources/gel/local_scope.cc:48-56 | appends a local unless its name is taken |
| Scopes.LocalScope.Add | Sources/gel/local_scope.h:140-153 | a new local gets the next index, a local without a value takes it, one with a value is kept |
| Scopes.LocalScope.AddScope | Sources/gel/local_scope.cc:63-80 | adds the locals that are not native procedures one after the other to whatever the scope holds; succeeds if and only if each can be added |
| Scopes.LookupIsMeant | Sources/gel/local_scope.cc:82-91 | for every chain of scopes, a lookup gives the first local of the name in the innermost scope that has one, and nothing exactly when none has |
| Scopes.MeantIsUnique | Sources/gel/local_scope.cc:82-91 | no other result would do |
| Scopes.FoundWith | Sources/gel/local_scope.h:140-153 | a local that takes a value is found with it, one that has a value keeps it, every other name is found as before |
| Scopes.WithGroups | Sources/gel/local_scope.cc:63-80 | adding two groups of locals is adding the first and then the second |
| Scopes.WithJustOne | Sources/gel/local_scope.cc:63-80 | adding one local is adding it by its name, unless it is a native procedure |
| Scopes.LocalScope.Lookup | Sources/gel/local_scope.cc:82-91 | the innermost local of that name, over the frames of the chain |
| Scopes.EnterScope | Sources/gel/runtime.cc:111-128 | argument `i` gets slot `i + 1` under the name of parameter `n - 1 - i`; fails exactly when names clash |
| Scopes.Resolve | Sources/gel/flow_graph_builder.cc:763-784 | a symbol is a constant, a slot or unknown |
| Scopes.BodyScope | Sources/gel/flow_graph_builder.cc:961-964 | the scope a body is visited in |
| Scopes.ParameterSlots | Sources/gel/runtime.cc:119-128 | the emitted index of a parameter is the slot of its argument, whatever the outer scopes hold; by name it would be another argument |
| Macros.MacroExpander.Visit | Sources/gel/macro_expander.cc:55-72 | visiting an expression gives its replacements and leaves the scope as it was |
| Macros.MacroExpander.VisitCallProc | Sources/gel/macro_expander.cc:113-166 | macro calls and other calls, scope restored |
| Macros.MacroExpander.VisitWhen | Sources/gel/macro_expander.cc:304-329 | test and spliced actions |
| Macros.ExpansionIsSubstitution | Sources/gel/macro_expander.cc:113-166 | one expansion without nested macro calls is simultaneous substitution in argument position |
| Macros.NestedExpansionIff | Sources/gel/macro_expander.cc:136-147 | a macro call in a macro's body gets its arguments as they stand there; that is substituting first and expanding then if and only if every argument the inner macro uses is unchanged by the outer substitution |
| Macros.OuterNameSurvives | Sources/gel/macro_expander.cc:136-147 | an outer parameter passed on to another macro is left in the result |
| Macros.ResultsIffExpandable | Sources/gel/macro_expander.cc:55-166 | a visit has results if and only if there is a macro call or bound name where it looks |
| Macros.PlainStays | Sources/gel/macro_expander.cc:113-134 | without macro calls nothing is replaced |
| Macros.LookupInnermost | Sources/gel/local_scope.cc:82-91 | a name in a macro's scope means what it means in the innermost frame that has it |
| Macros.WhenSplices | Sources/gel/macro_expander.cc:311-327 | a macro call among the actions of a `when` is replaced, in its place, by all of the macro's body |
| Macros.BodySplices | Sources/gel/macro_expander.cc:150-162 | so is a macro call at any place of a macro's body |
| Macros.ArgumentTakesFirst | Sources/gel/macro_expander.cc:115-131 | a macro call among the arguments of a call is replaced by the first expression of the macro's body |
| Macros.OperandTakesFirst | Sources/gel/macro_expander.cc:55-72 | so is one that is an operand or the test of a `when` |
| Macros.BadMacroCall | Sources/gel/macro_expander.cc:134-148 | a wrong number of arguments, or two parameters of one name, crashes |
| Macros.BodyCallExpands | Sources/gel/macro_expander.cc:11-28 | one macro call in a lambda's body is expanded by putting its results in its place in their order |
| Macros.ExpansionIsUnique | Sources/gel/macro_expander.cc:11-28 | a body has at most one full expansion, whatever the order in which elements are replaced, and every order takes the same number of replacements |
| Macros.MacroExpander.ExpandAllInLambda | Sources/gel/macro_expander.cc:11-28 | returns a body if and only if it is the full expansion of the given one within the bound on replacements; nothing in it can be expanded; a body without macro calls is returned as it was |
| Bits.RoundUpPow2 | Sources/gel/common.h:99-112 | the least power of two not below `x`, for 1 <= x <= 2^62 |
| Bits.IsPow2Iff | Sources/gel/common.h:114-117 | the bit test recognises exactly the powers of two |
| Bits.DecrementedValue | Sources/gel/common.h:115-116 | borrowing through the bits subtracts one |
| Bits.FieldUpdate | Sources/gel/bitfield.h:12-32 | an updated field holds the value modulo two to its size, every disjoint field is unchanged |
| Bits.UpdatesApart | Sources/gel/bitfield.h:30-32 | any sequence of updates leaves a disjoint field alone |
| Bits.TagLayout | Sources/gel/tag.h:15-43 | the fields of a tag follow one another without gaps and fit the word |
| Bits.RememberedKeepsTag | Sources/gel/collector.cc:55 | setting the remembered bit keeps the size and every other field of a tag |
| Bits.Buffer.constructor | Sources/gel/buffer.h:54-59 | the capacity is the least power of two not below the request and at most 4 MiB |
| Bits.Buffer.CopyFrom | Sources/gel/buffer.h:23-28 | appends what fits; length never exceeds capacity |
| Copying.OldObjects | Sources/gel/collector.cc:47-58 | an old object only gets a forwarding address, that of its last copy |
| Copying.Copies | Sources/gel/pointer.h:156-161 | each copy lies at its place with payload and size unchanged |
| Copying.SumOfSome | Sources/gel/collector.cc:37-45 | distinct objects take no more room than all objects |
| Collector.NewTagFields | Sources/gel/tag.h:153-155 | the tag of a new object says that it is new and how large it is and nothing else; the object takes two words more |
| Collector.NewZone.TryAllocate | Sources/gel/zone.cc:26-41 | bump allocation under the strict bound keeps objects contiguous |
| Collector.Collector.CopyPointer | Sources/gel/collector.cc:37-45 | copies to the next address, or fails at the strict bound |
| Collector.Collector.Process | Sources/gel/collector.cc:47-58 | copies an object and forwards it, copied before or not |
| Collector.Collector.ProcessRoots | Sources/gel/collector.cc:60-66 | copies every root in order |
| Collector.Collector.Visit | Sources/gel/collector.cc:89-94 | copies an object unless it has been forwarded |
| Collector.Collector.ProcessFromspace | Sources/gel/collector.cc:96-107 | the scan ends with every reference of every copy forwarded |
| Collector.Collector.NotifyRoots | Sources/gel/collector.cc:68-87 | every root gets the forwarding address of its object |
| Collector.Collector.Collect | Sources/gel/collector.cc:127-134 | it succeeds if and only if the roots, as often as they occur, and the other reachable objects take less than a half, as they do when no root occurs twice; when it ends exactly the reachable objects have been copied |
| Collector.FitsIff | Sources/gel/collector.cc:37-45 | that room is the sum over the roots and over the other reachable objects |
| Collector.Isomorphism | Sources/gel/collector.cc:47-58 | with distinct roots, forwarding is one to one from the reachable objects to copies with the same slots, payload and size, the remembered bit set and no forwarding address, and carries references to references and roots to roots |
| Collector.ForwardOnto | Sources/gel/collector.cc:47-58 | nothing else is added to memory |
| Collector.CopiedOnceIff | Sources/gel/collector.cc:60-66 | a root is copied as often as it occurs among the roots, any other reachable object once; so each is copied once if and only if no root occurs twice |
| Collector.RootTwice | Sources/gel/collector.cc:60-66 | a collection in which one object is a root twice: two copies, both roots at the second |
| Collector.SlotsStayOld | Sources/gel/collector.cc:47-58 | the slots of copies keep addresses outside the half in use |
| Collector.WalkPointers | Sources/gel/semispace.h:29-37 | the iterators walk by total size and fail where there is no object |
| Collector.WalkVisitsCopies | Sources/gel/semispace.h:29-37 | after a collection the walk of a semispace, from the start of the half in use, meets an object at every step, visits exactly the copies in copy order and ends at the allocation address |
| Collector.NewZone.VisitAllPointers | Sources/gel/zone.cc:43-53 | the walk of the zone begins at the start of the zone |
| Collector.ZoneWalkIff | Sources/gel/zone.h:59-86 | after a collection it visits exactly the copies if and only if the half in use is the first one |
| Collector.FirstCollectionBreaksWalk | Sources/gel/zone.h:59-86 | after the first collection of a zone it comes to an address where there is no object |

## Left out

- Interpreter.Runtime.Execute: like Machine.Exec, without the byte codes for classes, fields, lookup and exceptions.
- Interpreter.Runtime.Run: like Machine.Run, bounded by fuel and without the event loop.
- Interpreter.Runtime.Call: like Machine.CallProcedure, with `list` as the only native and lambdas compiled beforehand.
- Machine.Exec: the byte codes for classes, fields, symbol lookup and exceptions are decoded but not executed; they end in `Crash`.
- Machine.Run: fuel bounds a run, so a run that never returns is a `Timeout` for every fuel; the event loop run at `ret` is not part of the model.
- Machine.CallProcedure: natives other than `list` are left out, and every lambda is compiled before it is called, not at its first call.
- FlowGraphCompiler.CompileTarget: code is required to fit the 4096-byte buffer, which the original does not check; block labels are a fixed table, without the resizing in `GetBlockInfo`; macro expansion is a separate model.
- FlowGraphBuilder.ValueVisitor.VisitCondExpr: one clause with one action and an alternate; the clauses of a longer `cond` share one alternate and one join, so its graph is not a tree of blocks.
- FlowGraphBuilder.ValueVisitor.VisitCallProcExpr: only constant lambdas as targets; dynamic and symbolic targets, and the checks of pedantic mode, are left out.
- Bits.RoundUpPow2: above 2^62 the original overflows a signed word, which has no defined result.
- Collector.Collector.Collect: starts from a zone that has not been collected before, because after a collection the slots of copies still hold old addresses; the old zone and major collections are not implemented in the original.
- Copying.After: an object's slots are the references its own visitor reports; which references that is for each class of object is not modelled.
- Macros.MacroExpander.ExpandAllInLambda: the number of replacements is bounded by a parameter, and an expansion that does not end is a `Timeout` for every bound; `set!`, which the original rewrites in place, is left out.
- Scopes.LocalScope.AddScope: a scope is not added to itself.
- FlowGraphBuilder.ValueVisitor.VisitUnaryExpr: the InstanceOf check that pedantic mode adds before `car` and `cdr` is left out, like every other check of that mode.
- Bits.FieldUpdate: a field of all 64 bits, whose mask shifts a word by its own width (Sources/gel/bitfield.h:14), which has no defined result.
- Source.EvalToConstant: the debug assertions on `IsAtom` (Sources/gel/expression.cc:98, 100), which no value satisfies, so that every fold of an operator would fail with assertions on.
- Scopes.LocalScope.Add: locals are values in their scope, so sharing of one local between two scopes (`Union`) is not captured.
- Values.EqualTo: a procedure value is taken to be a lambda, which is equal to nothing; native procedures, which compare by symbol, are not values of the model.
- Operators.EqualsDecides: Doubles, classes and other objects are not among the values, and a symbol is its name, without a type part.
- Correctness.CallCorrect: asks that constant lists mention no symbol that stands for something else, because their code takes names for values (`Quoting.VariableListReturnsName`).
- Quoted expressions, maps, instances and the constants made of them.
- `while`, `let`, `let:rx`, `case`, `when` and `begin` as compiled expressions: their graphs are unfinished or drop values.
- `VisitScript`, modules, the parser, the REPL, Rx objects, the event loop, file system natives, logging and Graphviz output.
- Dominator sets of blocks, trace zones and compile-time statistics.
