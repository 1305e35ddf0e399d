# A course's systems projects, modelled and proved

Six programs of a systems course are modelled here in Dafny: a compiler from TeenyBASIC to x86-64 with its parser, two
`malloc` packages, the page-table iterators and process memory of a small kernel, and a blocking queue with a thread pool.
Code that works by changing things step by step is a class whose methods are proved against functions or predicates on
values; what the programs are for is proved about those.

**Compiler** (`BasicAst`, `X86Machine`, `CodeGen`, `ExprSimulation`, `Labels`, `StmtSimulation`, `CompilerCorrectness`,
`Compiler`). TeenyBASIC has a big-step semantics with fuel: 64-bit wrap-around values, the right operand first, a print trace, a trap
when a division has no result. The machine has registers, a memory of 8-byte cells, flags and labels; `print_int` may
change all caller-saved registers, the flags and the memory below the stack, and faults when the stack is not 16-byte
aligned (System V AMD64 ABI, section 3.2.2), as does a jump on undefined flags. The main theorems say that machine and program
behave alike, in both directions, for runs that end, trap or go on for ever. A condition without an operator, which the parser lets through, has
the meaning its code has.

**Parser** (`Grammar`, `Numerals`, `Tokens`, `ProgramText`, `ExpressionExact`, `ParserExact`, `ParserRoundTrip`, `ParserRefusals`,
`ParserSoundness`, `Parser`, `TeenyBasic`). `Grammar` gives, for the rest of a stream, what each parser function returns and what it leaves,
for every input, malformed ones too: as in project02b-wduan/src/ast.c:17-114, a node with a NULL part is NULL. The class moves the stream
position and is proved to do just that, which includes termination. `ProgramText` says, without the parser, which texts are texts of which
program and how far a failed reading goes; `ParserExact` proves that exactly these are accepted, each as its program. Whole programs
survive being written, in any layout and with any comments, and parsed.

**Allocators** (`HeapBytes`, `HeapLayout`, `HeapMemory`, `HeapUse`, `HeapState`, `ExplicitHeap`, `ImplicitState`, `ImplicitHeap`,
`Allocators`, `HeapClient`). The heap is one array of 8-byte words. Addresses and sizes are counted in words from the start of the region;
word 0 is the padding, so 0 can be NULL, and multiples of 16 bytes are the even numbers. Headers, footers and free-list links are words
of that array; a ghost map from block starts says how the blocks tile it. The explicit allocator's invariant leaves the left link of the
list's head open, the implicit one's lets `mm_heap_last` point into the last block. Clients see either allocator as pointers, each to bytes
of its own, and are refused only when there is no room.

**Page tables** (`PageTable`, `PageWalk`, `PageRange`, `VmIter`, `PostOrder`, `PtIter`, `PageBudget`, `Isolation`, `AddressSpace`,
`ImageCopy`, `Kernel`). Tables are pages of 512 entries, a page number and 12 flags each, as in Intel SDM volume 3A, section 4.5. A ghost map gives
every table page its one place in one tree. `Translate` is what the processor makes of an address. The kernel model sets up processes and
serves page allocations, and counts the pages that both take. Of the copies of program images it says where they go.

**Queue and thread pool** (`PoolProtocol`, `PoolSafety`, `PoolShutdown`, `PoolProgress`, `Queue`, `PoolQueue`). Threads take atomic steps:
lock, wait (releasing the lock), be woken, re-lock, link, signal, unlock, execute. A schedule is any sequence of enabled steps, for any number
of threads; a signal wakes one sleeper, and any sleeper may also wake spuriously (POSIX.1-2017, pthread_cond_timedwait). Work items may add
further items while they run. `Queue` is the linked list itself, and `PoolQueue` puts it in the place of the protocol's queue.
`Common` holds what several of these share.

## Where the code differs from what it says

- `range_perm` is documented as the intersection over the whole range (project04a-wduan/k-vmiter.hh:39). A range that is no longer than the
  current mapping range but crosses its end is not followed (project04a-wduan/k-vmiter.cc:8); `VmIter.RangeOverlooked` is such a run, and
  `VmIter.VmIter.RangePerm` says exactly when the answer is right.
- `process_setup` does not look at failed allocations (project04a-wduan/kernel.c:164-165, 185-186): when no page is free and no table is
  missing, page 0 is mapped for user code. Pages are never freed (project04a-wduan/kernel.c:133-136), so from then on none is left, no
  other process gets a page table, and page 0 is never reached from two processes: isolation holds all the same. What fails is that the
  process has its memory; `Kernel.Kernel.ProcessSetup` gives the exact number of pages for that.
- `process_setup` copies a segment through the physical address of its first page (project04a-wduan/kernel.c:171-173), as if the pages of
  the segment followed each other in physical memory. They do if and only if the lowest free pages did when they were allocated
  (`ImageCopy.LandedIff`, `ImageCopy.OrderIff`); a segment whose first page is missing stops the kernel, and one whose pages lie apart is
  copied over other pages (`Kernel.ImageScattered`). `Kernel.Kernel.ProcessSetup` and `Kernel.Kernel.Session` say when neither happens.
- `sys_page_alloc` is documented to answer -1 for an invalid argument too (project04a-wduan/u-lib.hh:91-98). `syscall_page_alloc` looks at
  no argument: unaligned and non-canonical addresses stop the kernel at an assertion, far addresses may stop it for want of tables, and
  others below PROC_START_ADDR or above MEMSIZE_VIRTUAL are mapped (`Kernel.Kernel.SyscallPageAlloc`). An address below PROC_START_ADDR
  takes the kernel's own page out of the caller's tree: descriptor tables, entry code and kernel stack, which the processor uses before
  `exception_entry` and `syscall_entry` load the kernel's page table (project04a-wduan/k-exception.S:74-96, 142-176). After such a call
  it need not be the modelled kernel that runs next.
- The parser accepts conditions without an operator (project02b-wduan/src/parser.c:206-207). A program that is accepted is well-formed
  exactly when that does not happen in what it keeps (`ParserSoundness.ParseSound`, `ParserSoundness.UnwrittenOperator`). The compiler then
  emits a comparison and no jump (project02b-wduan/src/compile.c:158-166, 191-199): an IF always takes its ELSE side, and a WHILE never ends
  normally (`BasicAst.BareIf`, `BasicAst.BareWhile`).
- An ELSE branch that cannot be parsed is treated as if it were absent (project02b-wduan/src/parser.c:265-268), because `init_if_node`
  takes NULL for no branch (`ParserSoundness.ElseDropped`, `ParserSoundness.LostElseText`).
- A word of more than 100 characters ends a block as if it were the end of the text, and its first 101 characters are dropped
  (project02b-wduan/src/parser.c:84-93, 219-222): a program followed by 101 such characters and nothing else is accepted, and anything else
  unknown is refused (`ParserRefusals.UnknownRefused`).
- Constant folding divides while compiling (project02b-wduan/src/compile.c:36), so a constant division by zero kills the compiler even where the
  program never gets there (`CompilerCorrectness.UnreachedDivision`).

## Model

| member | source | states |
|---|---|---|
| CompilerCorrectness.SemanticPreservation | project02b-wduan/src/compile.c:74-212 | for every program the parser can make (conditions without an operator included), initial variables, behaviour of `print_int` towards caller-saved registers and memory below the stack, and amount of fuel, the machine started at `basic_main` reaches a state that matches the source run: same output, same 26 variables, rsp and rbp restored and the caller's memory untouched; or the same divide trap; or still running after at least as many steps |
| CompilerCorrectness.BehaviourReflection | project02b-wduan/src/compile.c:98-206 | the other direction, after any number of machine steps: no fault (no undefined flag or label, no misaligned call), the output is a prefix of the program's, and a machine that has returned or trapped did so as the program does |
| CompilerCorrectness.DivergenceExactly | project02b-wduan/src/compile.c:183-206 | the machine runs for ever if and only if the source program does |
| CompilerCorrectness.UnreachedDivision | project02b-wduan/src/compile.c:35-38 | folding is not invisible: a program with an unreached constant 1/0 ends normally for every input, yet the compiler divides by zero |
| BasicAst.BareIf | project02b-wduan/src/compile.c:151-182 | an IF whose condition has no operator means the same whatever its first branch is |
| BasicAst.BareWhile | project02b-wduan/src/compile.c:183-206 | a WHILE whose condition has no operator never ends normally: it runs for ever, or traps |
| CodeGen.FoldCorrect | project02b-wduan/src/compile.c:12-53 | `fold` answers a constant exactly for expressions without variables, with their value; it dies exactly when some such subexpression has none. Of two constants the value is the one 64-bit number that agrees with the sum, difference or product modulo 2^64, or the quotient whose remainder is smaller than the divisor and has the dividend's sign; there is none for a division by zero, or of INT64_MIN by -1 |
| BasicAst.QuotientTruncates | project02b-wduan/src/compile.c:35-38 | division truncates toward zero: the quotient is the one number whose remainder is smaller than the divisor and has the dividend's sign |
| BasicAst.TrapsExactly | project02b-wduan/src/compile.c:127-132 | a division of 64-bit numbers has no 64-bit quotient just when the divisor is 0, or it is INT64_MIN by -1 |
| BasicAst.ArithmeticExact | project02b-wduan/src/compile.c:23-38 | each operation yields the one number that its sum, difference, product or remainder determines, and nothing exactly when it is stuck |
| CodeGen.ClosedCode | project02b-wduan/src/compile.c:74-79 | an expression without variables is compiled to one instruction that loads its value |
| CodeGen.FoldCondition | project02b-wduan/src/compile.c:39-42 | a comparison is never folded, though its operands are |
| CodeGen.ShiftAmountCorrect | project02b-wduan/src/compile.c:58-72 | the answer is k >= 1 exactly for 2^k, otherwise 0 |
| Compiler.IsPowerOfTwo | project02b-wduan/src/compile.c:58-72 | the bit-scanning loop computes that answer for every 64-bit number |
| X86Machine.ShiftIsMultiply | project02b-wduan/src/compile.c:111-126 | shifting left by k is multiplying by 2^k modulo 2^64, for negative values too |
| X86Machine.CompareFlagsDecide | project02b-wduan/src/compile.c:133-135 | after `cmp`, the signed conditional jumps decide <, = and > even when the subtraction overflows |
| X86Machine.CqtoExtends | project02b-wduan/src/compile.c:127-132 | `cqto` makes rdx:rax the signed 128-bit dividend |
| X86Machine.IdivTruncates | project02b-wduan/src/compile.c:127-132 | `idivq` leaves the truncated quotient and the remainder, and traps exactly when no 64-bit number is the truncated quotient |
| CodeGen.ShiftChosen | project02b-wduan/src/compile.c:111-126 | a shift by k >= 1 is chosen exactly when the right factor is written as 2^k |
| ExprSimulation.MultiplyRight | project02b-wduan/src/compile.c:111-126 | the instruction chosen for a product gives the wrap-around product, whether it is `imulq` or `shl` |
| ExprSimulation.ExprRuns | project02b-wduan/src/compile.c:74-143 | expression code leaves the wrap-around value in rdi or traps; it restores rsp and changes no memory at or above the rsp it started with |
| ExprSimulation.OperandsRun | project02b-wduan/src/compile.c:98-103 | the right operand is computed first, and both reach the operator unharmed |
| StmtSimulation.StmtRuns | project02b-wduan/src/compile.c:74-212 | the code of any statement, at any place in a program with unique labels, does what the statement does |
| StmtSimulation.IfRuns | project02b-wduan/src/compile.c:151-182 | the same for IF, through its two jumps |
| StmtSimulation.WhileRuns | project02b-wduan/src/compile.c:183-206 | the same for WHILE, round after round |
| Labels.DefinedOnce | project02b-wduan/src/compile.c:151-206 | for every AST and starting counters, the code defines exactly the labels numbered meanwhile, each once; counters only grow |
| Labels.JumpTargetDefined | project02b-wduan/src/compile.c:151-206 | every jump goes to a label defined exactly once in the code of the same node |
| Labels.ProgramLabelsUnique | project02b-wduan/src/compile.c:74-212 | no label is defined twice in a whole program |
| Compiler.Compiler.CompileAst | project02b-wduan/src/compile.c:74-212 | for every tree the parser can make, the printing compiler survives exactly when no constant subexpression traps, and then prints the specified code and leaves the counters where the specification says |
| Compiler.Compiler.CompileIf | project02b-wduan/src/compile.c:151-182 | the same for IF |
| Compiler.Compiler.CompileWhile | project02b-wduan/src/compile.c:183-206 | the same for WHILE |
| Compiler.CompileProgram | project02b-wduan/src/compiler.c:42-74 | header, code and footer are printed exactly when no constant subexpression traps; then they make a program of which all of the above holds |
| CompilerCorrectness.HeaderRuns | project02b-wduan/src/compiler.c:17-29 | the header saves rbp and makes a 16-byte aligned frame whose 26 slots are the variables |
| CompilerCorrectness.FooterRuns | project02b-wduan/src/compiler.c:36-40 | the footer returns with rsp and rbp as they were |
| ParserExact.ParseExact | project02b-wduan/src/parser.c:363-372 | a text without NUL characters is accepted as a program if and only if it is a text of that program: words of at most 100 characters and the spaces and comments between them, precedence and left association, missing comparison operators, lost ELSE branches, dropped words, and nothing left after the program, all said without the parser |
| ParserExact.StatementExact | project02b-wduan/src/parser.c:212-321 | a text of a statement is read as that statement, up to where it ends |
| ParserExact.StatementFound | project02b-wduan/src/parser.c:212-321 | whatever is read as a statement is a text of it, and a block is found to end only where it does |
| ParserExact.BlockExact | project02b-wduan/src/parser.c:323-361 | a text of a block is read as that block; one statement is not wrapped |
| ParserExact.BlockFound | project02b-wduan/src/parser.c:323-361 | whatever is read as a block is a text of it |
| ParserExact.BlockSpans | project02b-wduan/src/parser.c:323-361 | whether or not a block is read, its reading goes just as far as it should: to its end, or past the first statement that cannot be read |
| ParserExact.StatementSpans | project02b-wduan/src/parser.c:212-321 | the same for a statement, whatever is missing in it |
| ExpressionExact.ExpressionReads | project02b-wduan/src/parser.c:191-202 | a text of an expression is read as that expression, whatever follows that does not carry it on; its products and sums associate to the left |
| ExpressionExact.ExpressionFound | project02b-wduan/src/parser.c:191-202 | whatever is read as an expression is a text of it, and nothing follows that carries it on |
| ExpressionExact.ExprSpans | project02b-wduan/src/parser.c:191-202 | whether or not an expression is read, reading goes as far as factors and operators follow each other |
| ExpressionExact.FactorExact | project02b-wduan/src/parser.c:160-176 | a numeral, a variable, or an expression in parentheses is read as one factor |
| ExpressionExact.FactorFound | project02b-wduan/src/parser.c:160-176 | and nothing else is |
| ExpressionExact.TermExact | project02b-wduan/src/parser.c:178-189 | products and quotients associate to the left |
| ExpressionExact.TermFound | project02b-wduan/src/parser.c:178-189 | and only factors with * and / between them are read as a term |
| ExpressionExact.ConditionReads | project02b-wduan/src/parser.c:204-208 | two expressions with a comparison operator, or without one, are read as a condition, with operator NUL when it is missing |
| ExpressionExact.ConditionFound | project02b-wduan/src/parser.c:204-208 | and nothing else is |
| ExpressionExact.WordFound | project02b-wduan/src/parser.c:84-120 | the word that is read stands first, before a space, an operator or the end; none is read exactly at the end of the text, or when 101 characters come without a space or an operator, and these are dropped |
| ExpressionExact.CommentsRead | project02b-wduan/src/parser.c:131-138 | comment lines, whatever they say, however they are indented and however many, are skipped |
| ParserRefusals.ParseRefuses | project02b-wduan/src/parser.c:363-372 | a text is refused if and only if it is no text of any program |
| ParserRefusals.TrailingRefused | project02b-wduan/src/parser.c:363-372 | a program with anything left after it is refused |
| ParserRefusals.StrayEndRefused | project02b-wduan/src/parser.c:363-372 | in particular every program, in every layout, with END IF, END WHILE or ELSE and any text after it |
| ParserRefusals.UnreadableRefused | project02b-wduan/src/parser.c:323-361 | a program is refused if any of its statements cannot be read |
| ParserRefusals.UnreadableInside | project02b-wduan/src/parser.c:258-316 | and an IF or WHILE cannot be read if a statement of its first block cannot |
| ParserRefusals.UnclosedUnreadable | project02b-wduan/src/parser.c:160-176 | a PRINT, IF or WHILE whose expression begins with a parenthesis that is not closed cannot be read |
| ParserRefusals.UnknownUnreadable | project02b-wduan/src/parser.c:319-320 | nor can anything that begins with a word that is no keyword |
| ParserRefusals.UnknownRefused | project02b-wduan/src/parser.c:212-222 | after any statements, something that is neither a keyword nor the end is refused, unless it is a word of more than 100 characters and no more comes after the first 101: then the program is accepted without it |
| ParserRefusals.UnknownEndUnreadable | project02b-wduan/src/parser.c:230-243 | END with anything but IF or WHILE after it cannot be read |
| ParserRefusals.WrongEnd | project02b-wduan/src/parser.c:258-316 | after its condition and block a WHILE is read if and only if END WHILE comes next; an IF if and only if END IF does, or ELSE, anything, and END IF where the parser has come to |
| ParserRoundTrip.ProgramRoundTrip | project02b-wduan/src/parser.c:363-372 | a program written out with the parentheses it needs for left association and two precedence levels, with any white space between its words and any comment lines before statements and block ends, is a text of the program, and is parsed to the same tree |
| ParserRoundTrip.ExpressionRoundTrip | project02b-wduan/src/parser.c:191-202 | the same for an expression in any layout, before anything that does not carry it on |
| Numerals.StrtolExact | project02b-wduan/src/parser.c:140-156 | a word is read as a 64-bit number if and only if it is a numeral of that number: an optional sign and digits, decimal, octal after 0 or hexadecimal after 0x, the first digit counting most |
| Numerals.WrittenReads | project02b-wduan/src/parser.c:140-156 | every number, written in one of the three bases, with +, - or no sign, is read as its value if that is a 64-bit number, and not at all otherwise |
| Numerals.OutOfRange | project02b-wduan/src/parser.c:140-156 | a numeral out of range is refused |
| Numerals.NumeralUnique | project02b-wduan/src/parser.c:140-156 | no word is a numeral of two numbers |
| Tokens.TokenReads | project02b-wduan/src/parser.c:84-120 | a word is read up to a space, which is skipped, or to an operator, which may come first |
| ParserSoundness.ParseSound | project02b-wduan/src/parser.c:363-372 | whatever the text: what is accepted is a tree the compiler can take; it is a well-formed program if and only if each condition that went into it has its operator written; and then the program, written out in any layout and parsed again, is the same |
| ParserSoundness.ExpressionSound | project02b-wduan/src/parser.c:191-202 | whatever the text, an expression that is read is a well-formed one |
| ParserSoundness.ComparisonSound | project02b-wduan/src/parser.c:204-208 | whatever the text, a condition that is read compares two expressions if and only if an operator was written |
| ParserSoundness.ElseDropped | project02b-wduan/src/parser.c:258-281 | an IF that is read has no ELSE branch if and only if no ELSE was read, or the block after it did not parse |
| ParserSoundness.LostElse | project02b-wduan/src/parser.c:258-281 | for every condition and block: an ELSE before text that cannot be read as a block is lost, and if END IF comes where the parser gave up, the IF is read as if it had no ELSE |
| ParserSoundness.LostPrint | project02b-wduan/src/parser.c:246-249 | a block that begins with a PRINT of a word that is neither a name nor a number cannot be read, and the parser gives up after that word |
| ParserSoundness.LostElseText | project02b-wduan/src/parser.c:258-281 | a whole program text of which that is so |
| ParserSoundness.UnwrittenOperator | project02b-wduan/src/parser.c:204-208 | a whole program text that is accepted and is no well-formed program |
| TeenyBasic.TextToMachine | project02b-wduan/src/compiler.c:42-74 | text, parser, compiler and machine together: for every text that is accepted, and then it is a text of the tree, the code runs as the tree means; the tree is a well-formed program exactly when each condition it keeps has an operator |
| TeenyBasic.WrittenToMachine | project02b-wduan/src/compiler.c:42-74 | the same for every program that is written out, in any layout: it is accepted |
| Parser.Parser.Advance | project02b-wduan/src/parser.c:60-70 | the loop over spaces ends; result and new position are those of the grammar function |
| Parser.Parser.TryAdvance | project02b-wduan/src/parser.c:74-82 | a character that does not suit is put back, the spaces before it are not |
| Parser.Parser.AdvanceUntilSeparator | project02b-wduan/src/parser.c:84-120 | the token loop ends, with the grammar function's token and position |
| Parser.Parser.Factor | project02b-wduan/src/parser.c:160-176 | terminates on every stream by the characters left, with the grammar function's result and position; NULL where a part is NULL |
| Parser.Parser.Term | project02b-wduan/src/parser.c:178-189 | the same |
| Parser.Parser.Expression | project02b-wduan/src/parser.c:191-202 | the same |
| Parser.Parser.Statement | project02b-wduan/src/parser.c:212-321 | the same, restored positions included |
| Parser.Parser.Sequence | project02b-wduan/src/parser.c:323-361 | the same |
| Parser.Parser.Parse | project02b-wduan/src/parser.c:363-372 | the same for the whole stream, which must be used up |
| HeapClient.Client.Run | project03-wduan/driver/mdriver.c:750-855 | with either allocator, over any sequence of malloc, realloc, free and writes of bytes inside payloads: every live block begins with exactly the bytes its client put there, and no other block is allocated. The run stops only at a request that finds no room: no free block is large enough and the region cannot grow by so much |
| HeapClient.Client.Step | project03-wduan/driver/mdriver.c:777-855 | one request of a trace, in bytes: it is granted if and only if there is room for it, or its block is large enough already; when it is refused nothing is lost |
| Allocators.Allocator.Malloc | project03-wduan/driver/mdriver.c:778-798 | of either allocator: NULL if and only if no free block (of the coalesced heap, for the implicit one) is large enough and the region cannot grow by so much, and then nothing changes; else one more block, with at least so many bytes, all others as they were |
| Allocators.Allocator.Realloc | project03-wduan/driver/mdriver.c:801-836 | of either allocator: for size 0 the block is freed; the block stays if and only if it is large enough; NULL if and only if it is not and there is no room for another, and then nothing changes; else another block in its stead that begins with its words and has room for so many bytes; all others as they were |
| Allocators.Allocator.Store | project03-wduan/driver/mdriver.c:563-583 | a byte store behind a pointer changes that byte alone |
| HeapBytes.StoreByte | project03-wduan/driver/mdriver.c:563-583 | writing one byte of a word leaves the other bytes of all words |
| ExplicitHeap.ExplicitHeap.Malloc | project03-wduan/src/mm-explicit.c:203-229 | the heap invariant is kept; the result is a 16-byte aligned payload, large enough and wasting less than a block, of a block that was not allocated: the first fit of the free list if there is one, split when the rest can be a block, with the rest in front of the list and the others in their order; else new at the break; NULL if and only if nothing fits and the region is full, and then nothing changes; every other live payload is unchanged |
| ExplicitHeap.ExplicitHeap.Free | project03-wduan/src/mm-explicit.c:234-245 | exactly this block ceases to be allocated, other payloads are unchanged, and coalescing restores the invariant. The free list is determined: a block without a free left neighbour comes first, one with it takes no new place, a free right neighbour is left out, and all others keep their order; so are the blocks |
| ExplicitHeap.FreeThenMalloc | project03-wduan/src/mm-explicit.c:150-229 | last in, first out: a block that is freed between allocated neighbours is what the next `mm_malloc` of at most its size answers |
| ExplicitHeap.ExplicitHeap.Realloc | project03-wduan/src/mm-explicit.c:251-279 | the result holds the old payload as far as both sizes reach, and other payloads are unchanged; the block stays if and only if it is large enough, and the answer for a nonzero size is NULL if and only if it is not, nothing fits and the region is full; then nothing changes. A block that moves goes where `mm_malloc` puts it, and then is released as by `mm_free`, blocks and list order included |
| ExplicitHeap.ExplicitHeap.FindFit | project03-wduan/src/mm-explicit.c:104-143 | the first block of the list that is large enough, split when the rest can be a block, and left out of the list, with the rest in front of it; all list links stay right, but for the left link of the head |
| ExplicitHeap.ExplicitHeap.UnlinkFit | project03-wduan/src/mm-explicit.c:128-138 | unlinking without clearing the new head's left link keeps the invariant |
| ExplicitHeap.ExplicitHeap.Coalesce | project03-wduan/src/mm-explicit.c:150-181 | from one unlisted free block back to the full invariant: no two adjacent free blocks, every free block listed once. It is listed in front, unless a free left neighbour takes it in, which keeps its place in the list; a free right neighbour is merged and left out; the others keep their order |
| ExplicitHeap.ExplicitHeap.AddFreeNode | project03-wduan/src/mm-explicit.c:47-59 | the block is listed in front of the others, with correct links |
| ExplicitHeap.ExplicitHeap.RemoveFreeNode | project03-wduan/src/mm-explicit.c:61-76 | the block is taken out of the list wherever it is, and the others stay linked in order |
| ExplicitHeap.ExplicitHeap.CheckHeap | project03-wduan/src/mm-explicit.c:295-330 | `mm_checkheap` never reports: all headers equal footers, and the list has as many nodes as there are free blocks |
| ExplicitHeap.ExplicitHeap.constructor | project03-wduan/src/mm-explicit.c:186-198 | an empty heap satisfies the invariant, whatever garbage the region holds |
| ExplicitHeap.ExplicitHeap.Sbrk | project03-wduan/src/memlib.c:60-71 | the break moves by the request, or not at all when that is negative or would leave the region |
| HeapUse.PayloadsApart | project03-wduan/driver/mdriver.c:466-500 | allocated payloads are aligned, inside the heap, and do not overlap |
| HeapUse.PayloadWrite | project03-wduan/src/mm-explicit.c:84-88 | a client that stays inside its payload disturbs no header, footer, link or other payload |
| HeapLayout.Covers | project03-wduan/src/mm-explicit.c:298-303 | the blocks tile the heap: each word from the first block to the break is in exactly one |
| HeapLayout.SplitTiled | project03-wduan/src/mm-explicit.c:114-119 | splitting a block keeps the tiling |
| HeapLayout.MergeTiled | project03-wduan/src/mm-explicit.c:157-173 | merging neighbours keeps the tiling |
| HeapMemory.UnlinkChain | project03-wduan/src/mm-explicit.c:61-76 | unlinking any node leaves the other links right, with or without clearing the new head's left link |
| HeapMemory.PushFrontChain | project03-wduan/src/mm-explicit.c:47-59 | pushing a node makes a correct list whatever the old head's left link held |
| HeapState.LeftNeighbour | project03-wduan/src/mm-explicit.c:152-155 | the word before a block is the footer of the block before it, and leads to its header |
| ImplicitHeap.ImplicitHeap.Coalesce | project03-wduan/src/mm-implicit.c:86-97 | ends with no two adjacent free blocks, keeps the break and every allocated block and payload, and the last block stays at or before `mm_heap_last`, which stays below the break |
| ImplicitHeap.ImplicitHeap.MergeOnwards | project03-wduan/src/mm-implicit.c:92-95 | the inner loop merges a block with all free blocks after it; the word it reads at the break is inside the region |
| ImplicitHeap.BreakInside | project03-wduan/src/mm-implicit.c:92-92 | the break never reaches the end of the region: it is an odd number of words |
| ImplicitHeap.ImplicitHeap.FindFit | project03-wduan/src/mm-implicit.c:58-79 | the fitting free block of the lowest address, cut to exactly the size asked for |
| ImplicitHeap.ImplicitHeap.Malloc | project03-wduan/src/mm-implicit.c:118-146 | the heap is coalesced first: the same allocated blocks, and no two free ones adjacent. Then the free block of the lowest address that is large enough is cut to exactly the rounded size; if and only if none is, the heap grows at the break, or NULL is answered, which is so exactly when the region is full too; other payloads unchanged |
| ImplicitHeap.ImplicitHeap.Free | project03-wduan/src/mm-implicit.c:151-160 | the block is marked free: one header changes, and no other word, block or payload |
| ImplicitHeap.ImplicitHeap.Realloc | project03-wduan/src/mm-implicit.c:166-193 | the payload moves with the block, and other payloads are unchanged; the block stays if and only if it is large enough, and the answer for a nonzero size is NULL if and only if it is not, no free block of the coalesced heap fits and the region is full. A block that moves goes where `mm_malloc` puts it, and then is marked free |
| ImplicitState.MergeStep | project03-wduan/src/mm-implicit.c:92-95 | merging keeps the invariant although `mm_heap_last` is left stale |
| ImplicitState.SplitStep | project03-wduan/src/mm-implicit.c:65-75 | splitting keeps it, stale or not |
| VmIter.VmIter.TryMap | project04a-wduan/k-vmiter.cc:68-100 | on 0 with the present bit a fresh walk gives exactly this page and permission; -1 exactly when more tables are missing than pages are left, and then no translation in any tree changes and no page is left; no other page of any tree ever does; exactly the missing tables are taken from the free pages; walks never get shallower |
| VmIter.VmIter.RealFind | project04a-wduan/k-vmiter.cc:42-58 | from any valid position, the same-page shortcut ends with the level, entry and permissions of a walk from the root |
| VmIter.VmIter.Down | project04a-wduan/k-vmiter.cc:28-40 | continues a walk as the hardware does, and never meets an entry beyond 4 GB |
| VmIter.VmIter.NextRange | project04a-wduan/k-vmiter.hh:206-208 | moves to the first address after the range, and stays what a fresh walk gives |
| VmIter.VmIter.Next | project04a-wduan/k-vmiter.cc:60-66 | moves a page on, or over a whole hole |
| VmIter.VmIter.ReportsTranslation | project04a-wduan/k-vmiter.hh:156-180 | `pa` and `perm` report the translation of the current address |
| VmIter.VmIter.RangePerm | project04a-wduan/k-vmiter.cc:5-26 | the intersection of the permissions of the whole range when it is longer than the current mapping range, stays inside it, or begins unmapped; otherwise the first permission alone, right exactly when the rest grants no less; for an empty range the first permission too |
| VmIter.RangeOverlooked | project04a-wduan/k-vmiter.cc:5-26 | a run in which `range_perm` goes wrong: a new tree, one page mapped, asked for two bytes over the end of the page; the answer is not the intersection |
| PageRange.ScanStep | project04a-wduan/k-vmiter.cc:14-19 | one round of its loop: the next range is added, none is missed |
| PageRange.NextBegins | project04a-wduan/k-vmiter.hh:153-155 | the address after a range begins the next one, whatever its level |
| PageWalk.ResumeWalk | project04a-wduan/k-vmiter.cc:42-54 | a walk for one address can be resumed for another in the same region at the level where it stopped |
| PageWalk.AddTableTranslates | project04a-wduan/k-vmiter.cc:85-94 | installing an empty table changes no translation |
| PageWalk.AddTableForest | project04a-wduan/k-vmiter.cc:85-94 | and keeps all tables disjoint trees |
| PageWalk.LeafWriteElsewhere | project04a-wduan/k-vmiter.cc:96-98 | writing a page entry changes no other page's translation, in any tree |
| PageTable.IndexLow | project04a-wduan/x86-64.h:56-58 | the page indices do not depend on the bits above 47 |
| PageWalk.CanonicalByQuotient | project04a-wduan/x86-64.h:65-67 | canonical addresses are those whose top 25 bits agree |
| VmIter.Memory.Kalloc | project04a-wduan/kernel.c:112-126 | the lowest free page that may be allocated, or none if there is none: not page 0, not from 0x40 up to the end of the kernel, not its stack page 0x7F, not from 0xA0 to 0xFF, and below 0x200 |
| PtIter.PtIter.Down | project04a-wduan/k-vmiter.cc:110-140 | moves to the next page in post-order and terminates, reading only pages not handed out so far: these may hold anything by then |
| PtIter.PtIter.constructor | project04a-wduan/k-vmiter.cc:103-108 | the traversal starts at the first page in post-order |
| PtIter.PtIter.Next | project04a-wduan/k-vmiter.hh:242-244 | exactly one more page, or the end when all have come |
| PtIter.FreeTree | project04a-wduan/k-vmiter.hh:88-97 | the documented loop, with every page overwritten as soon as it is freed, frees every page but the root, once, in post-order |
| PostOrder.PagesDistinct | project04a-wduan/k-vmiter.cc:103-140 | no page comes twice, and the root not at all |
| PostOrder.PageComes | project04a-wduan/k-vmiter.cc:103-140 | every table page that a walk reaches comes, and before the pages above it |
| Isolation.ProcessesIsolated | project04a-wduan/kernel.c:143-191 | under the invariant, a page that user code of one process reaches holds no table and nothing of the kernel (not its image, not its stack page 0x7F, no device page but the console), and user code of another process reaches it only if it is the console; page 0 is no exception |
| Isolation.MapKeepsPrivate | project04a-wduan/util.c:13-15 | mapping a page of its own, the console, or anything kernel-only for one process keeps the invariant |
| Isolation.NullHanded | project04a-wduan/kernel.c:164-165 | when no page is left, page 0 can be handed to a process and the invariant still holds: to one process only |
| PageBudget.TreeOfFive | project04a-wduan/kernel.c:147-186 | a tree that was not there before, and reaches address 0 and the stack page, takes at least five table pages |
| PageBudget.RegionLevels | project04a-wduan/kernel.c:180-186 | once address 0 is mapped, an address for processes misses at most the one table that the stack page misses |
| PageBudget.RegionLevel | project04a-wduan/k-vmiter.cc:28-40 | all walks of a 2 MB region stop at the same level |
| Isolation.CoverByTwo | project04a-wduan/kernel.c:180-186 | mapping address 0 and the stack page makes all tables that later page allocations need |
| PageRange.WholePage | project04a-wduan/k-vmiter.hh:156-166 | a page is mapped as a whole |
| PageRange.WholeRange | project04a-wduan/k-vmiter.hh:156-166 | a range is mapped as a whole, large pages too: the physical address grows with the virtual one from the frame in the entry on |
| Kernel.Kernel.Session | project04a-wduan/kernel.c:83-90 | any set-up of processes and then any page allocations until the kernel stops: whatever memory there is, in every state the page tables let only the console be reached by two processes, and no table and no other page of the kernel by any. For processes below MEMSIZE_VIRTUAL, if the kernel gets through the set-up, or every copy goes where it should, all is there if and only if there are, for each, five pages and one for each page of its segments and its stack; for segments below 2 MB that share no page, all is there and copied to its place if and only if, besides, the pages each segment gets follow each other. Then, with documented addresses, no process loses anything it was set up with, and call number c is answered 0 if and only if c is less than the number of pages left over |
| Kernel.Kernel.SetUpAll | project04a-wduan/kernel.c:83-90 | the same for several processes, one after the other: the pages needed add up, memory must be tidy for each when its turn comes, and, for segments below the stack pages, the kernel gets through if and only if no copy of any of them goes astray so far that it stops, and all copies are in their places if and only if they are so process by process |
| Kernel.Kernel.ProcessSetup | project04a-wduan/kernel.c:143-191 | isolation is kept, whether allocations fail or not. The kernel stops for want of a root, or because the copy of a segment goes to page 0, to no page, or over the end of memory, and, for segments below the stack page, exactly then. For segments below MEMSIZE_VIRTUAL, everything that is asked for is there if and only if the kernel did not stop and there were five pages, and one for each page of the segments and the stack; exactly those are taken; with so many pages it stops only when a copy misses its segment's pages. After success the new process has its segments and a stack page of its own, none of them page 0, below them the console for users, nothing at page 0 and the rest for the kernel alone; no other process loses anything |
| Kernel.Kernel.LoadImage | project04a-wduan/kernel.c:147-174 | from the new tree to the copies: with every page and mapping there and every copy in its place, no copy stops the kernel; for segments below 2 MB that share no page, every copy is in its place if and only if the pages that were left for each segment follow each other |
| Kernel.Kernel.CopySegments | project04a-wduan/kernel.c:169-174 | the copies stop the kernel if and only if some segment begins where nothing or page 0 is mapped, or its image would run over the end of physical memory |
| ImageCopy.LandedIff | project04a-wduan/kernel.c:171-173 | each byte of a segment is copied to where its address leads if and only if the segment's pages follow each other in physical memory |
| ImageCopy.OrderIff | project04a-wduan/kernel.c:112-126 | pages that are allocated one by one follow each other if and only if the lowest ones that were free do |
| ImageCopy.LeftUnique | project04a-wduan/kernel.c:112-126 | which pages are free depends only on how many were taken, not on what for |
| Kernel.ImageScattered | project04a-wduan/kernel.c:169-174 | a run in which this goes wrong: the first process, with pages enough, has a segment of sixty pages, and its image is not copied to its place, because the kernel lies between the pages |
| Kernel.Kernel.MapSystemPages | project04a-wduan/kernel.c:147-150 | address by address, what lies below the processes |
| Kernel.Kernel.SyscallPageAlloc | project04a-wduan/kernel.c:338-351 | for every address: -1 if and only if no page is free, and then nothing has changed; 0 if and only if the address is aligned and canonical and fewer tables are missing for it than pages are free, and then it is mapped to a page that was free, user-writable, and that page is the one cleared; otherwise the kernel stops. Isolation is kept, and for addresses of processes nobody loses anything |
| Kernel.Kernel.Map | project04a-wduan/util.c:13-15 | a mapping in a process's tree keeps the kernel's invariants |
| Kernel.Kernel.AllocPage | project04a-wduan/kernel.c:164-165 | isolation is kept in every case. The address is mapped to page 0 if and only if no page is free and no table is missing; it is mapped to a page that was free if and only if the free pages exceed the missing tables; pages given before stay given |
| Kernel.Kernel.MapKernelSpace | project04a-wduan/util.c:4-11 | every address below the processes is mapped to itself, for the kernel only |
| Kernel.Kernel.LoadSegment | project04a-wduan/kernel.c:156-167 | if nothing fails, every address of a segment has a page of this process, and exactly as many pages were taken as the segment lies in, besides tables; if anything fails no page is left; no other tree and no address outside the segment's pages changes; and what was given stays given. When its tables were there, its copy will be in its place if and only if the lowest pages left follow each other |
| Kernel.Kernel.KallocPagetable | project04a-wduan/k-hardware.cc:290-296 | a tree that maps nothing, exactly when a page is left; no translation of any other tree changes |
| Kernel.Kernel.Syscall | project04a-wduan/kernel.c:290-327 | as `syscall` sees it: with documented addresses and a process that is ready, 0 exactly while pages are left, one page taken, and no process loses anything |
| PoolShutdown.ShutdownCorrect | project05-wduan/src/thread_pool.c:20-66 | in every schedule, when `thread_pool_finish` returns, each work item, including those that work items added, was executed exactly as often as it was added; each worker took exactly one NULL and has exited; the queue is empty |
| PoolShutdown.QueueLinearizable | project05-wduan/src/queue.c:40-96 | in every reachable state the values taken, then those queued, are the values enqueued in order; one thread at most is inside; while anyone sleeps there is a wakeup under way for every item |
| PoolShutdown.InvKept | project05-wduan/src/thread_pool.c:20-66 | every step of every thread keeps the invariant |
| PoolSafety.WakeupKept | project05-wduan/src/queue.c:57-69 | no wakeup is lost, with spurious wakeups and items taken by other threads |
| PoolSafety.FifoKept | project05-wduan/src/queue.c:40-96 | items leave in the order of arrival |
| PoolSafety.MutexKept | project05-wduan/src/queue.c:40-96 | exactly the owner of the lock is between locking and unlocking |
| PoolSafety.AccountedKept | project05-wduan/src/thread_pool.c:20-33 | each item taken is executed once or still in hand; each NULL taken ends one worker |
| PoolSafety.PlanningKept | project05-wduan/src/thread_pool.c:47-52 | nothing to be added is dropped or added twice |
| PoolSafety.NullsLastKept | project05-wduan/src/thread_pool.c:54-57 | no work is queued behind a NULL |
| PoolProgress.NoDeadlock | project05-wduan/src/thread_pool.c:20-66 | in every reachable state before the end some thread can step, without a spurious wakeup |
| PoolProgress.EveryScheduleEnds | project05-wduan/src/thread_pool.c:54-66 | the length of every schedule is bounded by the work planned, the number of threads and the spurious wakeups in it |
| PoolProgress.FinishReachable | project05-wduan/src/thread_pool.c:54-66 | from every reachable state the end can be reached |
| PoolProgress.StepLowersPotential | project05-wduan/src/queue.c:61-69 | every step but a spurious wakeup makes progress |
| Queue.Queue.Enqueue | project05-wduan/src/queue.c:40-59 | the linked nodes are the old ones and the new one at the end; head, tail, size and both links of every node agree |
| Queue.Queue.Dequeue | project05-wduan/src/queue.c:61-96 | the first value is taken and the links agree again |
| PoolQueue.RunOnQueue | project05-wduan/src/queue.c:40-96 | in any schedule of the pool, with the linked nodes in place of the protocol's queue: head, tail, size and links stay right, and what was dequeued and then what is in the nodes is what was enqueued, in order |
| PoolQueue.NextAccess | project05-wduan/src/queue.c:40-96 | the protocol reads and changes its queue only as one enqueue or one dequeue does |

## Left out

- Compiler.Compiler.CompileAst: instructions, not their text; label counters do not wrap at 32 bits; addresses do not wrap at 64 bits and the stack does not overflow.
- CompilerCorrectness.SemanticPreservation: the operators of conditions are <, = and >, as project02b-wduan/include/ast.h:92 says, or missing, and no constant subexpression traps while compiling. Signed overflow in `fold` is taken as wrap-around.
- ParserExact.ParseExact: streams without NUL characters; `Parser` and `Grammar` follow the code for the others too.
- ParserRoundTrip.ProgramRoundTrip: no more parentheses than needed, numbers in decimal without leading zeros, and white space before the first character after a variable at the end of a condition or statement, where the parser could do without; what else is accepted, and what is refused, says `ParserExact.ParseExact`.
- ExplicitHeap.ExplicitHeap.Malloc: requests of at least one byte, as the driver makes (project03-wduan/driver/mdriver.c:471); sizes that overflow 64 bits are not modelled.
- ExplicitHeap.ExplicitHeap.Free: only live payloads (or NULL) are freed; clients stay inside their payloads.
- ExplicitHeap.ExplicitHeap.Realloc: the copy is made word by word, as block sizes are whole words; `mm_realloc(NULL, 0)` is not called.
- HeapClient.Client.Run: requests of 0 bytes are not made.
- VmIter.VmIter.TryMap: the kernel's assertions at its start are preconditions; permissions are the low 12 bits, as in the code, so the execute-disable bit is not tracked.
- Kernel.Kernel.SyscallPageAlloc: the write through (void*) -1 faults because the kernel's page table maps nothing there (project04a-wduan/k-hardware.cc:111-140), which is not part of the model.
- Kernel.Kernel.MapKernelSpace: the iterator of `memory_foreach`, of which only the address is used, is that address.
- Kernel.Kernel.ProcessSetup: where the bytes of the program image go, not what they are. After a copy that is not in its place, other pages are overwritten, and what the model says of the state is what it would be without that; the results `clean` and `up` tell when it is so. The exact number of pages is for segments below MEMSIZE_VIRTUAL, where the processes' addresses are; for others success needs at least as many. The exact condition for copies is for segments below 2 MB that share no page, as the programs here have; for others `clean` is defined by where the copies go.
- Kernel.Kernel.Session: processes are set up before the first page allocation, as in project04a-wduan/kernel.c:83-90; a process that faults on its own is not modelled. What is proved for addresses below PROC_START_ADDR is about page tables: entering the kernel from such a process is not modelled.
- PoolShutdown.ShutdownCorrect: at least one worker, and no work item still adds items once `thread_pool_finish` runs.
- Queue.Queue.Dequeue: the critical section; waiting and locking are in `PoolProtocol`. The test for a NULL queue after it was dereferenced (project05-wduan/src/queue.c:63) is not modelled.
- Freeing syntax trees that are given up.
- `mm_calloc`, `mem_reset_brk`, and misuse of the allocators such as double frees.
- `kfree`, fork and exit, which the kernel does not implement; interrupts, scheduling, devices, the console, the boot loader.
- The kernel's own page table, apart from its root; that it maps all of physical memory but page 0 (project04a-wduan/kernel.c:72-73, project04a-wduan/k-hardware.cc:111-140) says where copies stop the kernel. The 0xCC fill of new pages.
- Memory ordering below the level of mutexes; the memory of freed queue nodes and work records.
- The Java virtual machine, the cache-timing programs, the file-system exercise and the password cracker.
