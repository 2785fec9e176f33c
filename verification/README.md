# Verified core of the Vector Forth kernel

This project models the stateful cores of a bare-metal x86-64 kernel whose user interface is a
threaded-code Forth, and proves what they are for. Each core is a specification on values with its
theorems, and next to it the code in its own form (classes, arrays and loops), proved equal to the
specification.

- **Forth** (`ForthWords`, `Arithmetic`, `ForthMachine`, `ForthCompiler`, `CompileProofs`, `ControlFlow`,
  `Session`, `Startup`, `See`; as code `Primitives`, `Forth`). A machine is the 1MB dictionary as bytes, two bounded
  stacks, the instruction pointer, the compiler state and the number base. `Meaning` says what a sequence of
  numbers and words does to the data stack and the variables, and `Arithmetic` what the arithmetic words leave, in
  terms of integers and of bits. The main theorem is that compiling a word and
  running it does what interpreting its tokens does; with it come termination, restoration of the return stack,
  broken-off definitions, whole sessions that begin with the kernel's own table of primitives, back-patching and
  SEE. The addresses the linker gives the C functions are a parameter (`Link`).
- **Dictionary and stacks** (`Cells`, `Dictionary`, `Stacks`, `DictMemory`). The bytes of the dictionary stand for
  a list of words, and every operation on the bytes is one on the list; the pages below are taken, mapped and
  cleared for it.
- **Heap** (`BlockList`, `KernelHeap`, `Masks`): the first-fit, splitting, coalescing free list with headers in memory.
- **Physical pages** (`Pmm`, `Bits`) and **page tables** (`PageTables`, `Vmm`): a bitmap allocator, and
  four-level tables (section 4.5 of volume 3A of the Intel SDM) that refine a flat map from pages to frames,
  starting from the tree the boot code builds.
- **Block cache and block allocator** (`Crc`, `BlockCache`, `BlockDevice`, `Lru`, `FileSystem`): a write-back cache
  with the CRC-32 of section 8 of RFC 1952 that clients cannot tell from a plain block map.
- **Scheduler and context switch** (`TaskRing`, `Scheduler`, `ContextSwitch`): a ring of tasks whose switches
  are invisible to the tasks.
- **Numbers** (`Numbers`, `Words`, `Width`): printing and parsing of 64-bit numbers, and the bits of machine words.

A kernel panic is an outcome that ends the run. Fallible functions of the Forth model return `None` where the
program would leave the model: memory outside the dictionary, a full dictionary, a processor trap, or a word
that is not modelled. The parameter `fuel` bounds the iterations of the inner interpreter in one execution and
is given a sufficient value, the unfolded size, by the theorems.

Where comments and code disagree the model follows the code: the dictionary has 1MB, not the 16MB of the comment
at vm/dictionary/dictionary.h:25; boot maps 4MB to themselves, not the 1GB of the comment at
kernel/memory/vmm.c:45; the block allocator serves the 8064 blocks of one bitmap block, not the 10000 written to
the superblock at fs/filesystem.c:20.

## Model

| member | source | states |
|---|---|---|
| CompileProofs.CompilingPreservesMeaning | vm/core/forth.c:612-635 | For every sequence of numbers and visible non-immediate words of the fragment that means something (no trap, no access outside the variables), `: name tokens ;` followed by `name` ends with the same data stack, return stack, null instruction pointer and memory below the new entry as interpreting the tokens directly, also when `name` is one the body uses |
| CompileProofs.Interpreted | vm/core/forth.c:612-635 | Interpreting such tokens has the meaning of their items, moves nothing but the data stack and the variables, and keeps the representation of the dictionary |
| CompileProofs.CompiledBody | vm/core/forth.c:616-629 | In compile state the tokens of a body add exactly the cells of their items to the hidden newest word; a literal is do_literal and the number |
| CompileProofs.ColonDefines | vm/core/forth.c:263-275 | `: name tokens ;` adds one visible word with the code of its tokens and the sentinel, and changes neither older memory nor the stacks |
| CompileProofs.Finished | vm/core/forth.c:271-275 | `;` appends the sentinel, clears the hidden bit of the newest word and returns to interpretation |
| CompileProofs.AbortKeepsLookups | vm/core/forth.c:630-632 | An unknown word drops the rest of the line and leaves the started word hidden; every name looks up as before the definition, and all older words keep their meaning |
| CompileProofs.SemicolonRevives | vm/core/forth.c:271-275 | A later `;` makes the broken-off word the answer to its name, and it then runs as the tokens before the unknown one |
| Session.PhraseStands | vm/core/forth.c:612-635 | Every phrase within the fragment and the space there is (tokens run at once, the start of a definition, more of its body on the same or a later line, its semicolon, a variable, a constant, a whole definition with control flow) is carried out in front of any other tokens and leaves the machine standing for the next world, with empty return stack and null instruction pointer |
| Session.LineStands | vm/core/forth.c:612-635 | So is every line of phrases, also one that ends in an unknown word and more, which ends compilation and can be revived by a later semicolon |
| Session.NextSound | vm/core/forth.c:96-133 | No phrase makes a compiled word call itself or a newer one |
| Session.SessionStands | vm/core/forth.c:612-635 | The same for every sequence of lines and registrations |
| Session.SessionTerminates | vm/core/forth.c:612-640 | In every session that starts from the empty dictionary each event is carried out, and every word of the fragment that is executed then terminates within its unfolded size with its meaning |
| Session.RegisterIsSession | vm/core/forth.c:547-610 | register_primitives is the first part of a session |
| Session.TablePossible | vm/core/forth.c:547-610 | Registering a table of any C functions is possible exactly when its entries fit the dictionary, and adds its words and nothing else |
| Session.Initialised | vm/core/forth.c:637-638 | After forth_init with any table that fits, the machine stands for the words of the table, and every name finds the last entry that answers to it |
| Session.TableHas | vm/core/forth.c:579-582 | A name whose last entry has a function of the compiler finds that function, as an immediate word if it is registered so |
| Session.TableFits | vm/dictionary/dictionary.c:87-127 | An entry takes at most 48 bytes |
| Session.InitialisedSession | vm/core/forth.c:612-640 | Sessions after forth_init with any table that fits are carried out, and their words terminate |
| Startup.NamesOnce | vm/core/forth.c:547-610 | No name of register_primitives is registered twice, ignoring case |
| Startup.OwnEntry | vm/core/forth.c:547-610 | so that every one of them finds its own entry |
| Startup.KernelReady | vm/core/forth.c:547-610 | After the kernel's forth_init the machine stands for its table, the names of the modelled words find the C functions they mean, and those of the compiler and of control flow theirs |
| Startup.AnySpelling | vm/dictionary/dictionary.c:184-193 | Whenever the machine stands for the words of the kernel table, dict_find returns the own entry of each kernel name, whichever of its letters are capitals |
| Startup.KernelSession | vm/core/forth.c:612-640 | Every session of permitted lines after the kernel's forth_init is carried out, and every word of the fragment then terminates |
| Session.KnownResolves | vm/core/forth.c:612-635 | Tokens that are numbers or visible non-immediate words have items, which call only the words there are |
| CompileProofs.BodyGrows | vm/core/forth.c:616-629 | More tokens for the word being compiled, on whatever line, add the cells of their items to it and keep the representation |
| CompileProofs.VariableDefines | vm/core/forth.c:277-287 | VARIABLE adds a word whose cell holds 0 and may be stored to without disturbing any word |
| CompileProofs.ConstantDefines | vm/core/forth.c:289-295 | CONSTANT adds a word for the number it takes from the data stack |
| CompileProofs.PrimitiveDefines | vm/dictionary/dictionary.c:207-210 | Adding any primitive adds a word, with the meaning of its C function if that is modelled, and keeps the representation |
| CompileProofs.CompilerAdded | vm/core/forth.c:579 | Adding `:` and an immediate `;` to any represented dictionary gives one the compile theorems apply to |
| CompileProofs.RepExtends | vm/dictionary/dictionary.c:87-118 | A new entry changes neither what the older words mean nor what the variables hold |
| ForthMachine.RunBody | vm/core/forth.c:96-133 | From any cell of a compiled body, running items takes exactly their unfolded size in iterations, has their meaning, and arrives at whatever cell is behind them with the return stack as it was |
| ForthMachine.RunColon | vm/core/forth.c:121-123 | A call inside a body pushes the return address, runs the callee, and comes back to the next cell with the return stack restored |
| ForthMachine.StopsInside | vm/core/forth.c:112-116 | A cell that is no entry, no literal and no sentinel ends the run one cell behind it, with the items before it done and the instruction pointer of the caller left on the return stack |
| ForthMachine.RunsToEnd | vm/core/forth.c:78-94 | A word whose cells end in the sentinel returns from the top level with the return stack as it was |
| ForthMachine.ExecuteMeets | vm/core/forth.c:78-94 | From the top level, executing any word of the fragment terminates within its unfolded size, has its meaning, restores the return stack and leaves the instruction pointer null |
| ForthMachine.IterateLiteral | vm/core/forth.c:107-110 | The cell after do_literal is pushed whatever its value, also the sentinel or the address of do_literal |
| ForthMachine.IterateExit | vm/core/forth.c:100-105 | The sentinel pops the instruction pointer and returns exactly when it pops null |
| ForthMachine.DispatchWord | vm/core/forth.c:118-131 | Dispatching on the entry of a word does what its definition says |
| ForthMachine.PrimMeets | vm/core/forth.c:189-241 | A primitive does to the machine what it means on the data stack and the variables; `!` and `+!` change only the addressed cell |
| ForthMachine.VariablesApart | vm/dictionary/dictionary.c:87-118 | Cells of different variables do not overlap |
| ForthWords.MeaningExtends | vm/core/forth.c:96-133 | Later definitions do not change what older items mean |
| ForthWords.CostExtends | vm/core/forth.c:96-133 | Nor their unfolded size or call depth |
| ForthWords.Truncated | vm/core/forth.c:205-207 | `/` and `MOD` divide towards zero: the remainder has the sign of the dividend and is smaller than the divisor |
| ForthWords.QuotientFits | vm/core/forth.c:205-207 | The quotient fits a cell except for the smallest number divided by -1 |
| ForthWords.DiagramsOfTwo | vm/core/forth.c:189-200 | The stack diagrams of DUP DROP SWAP OVER NIP TUCK 2DUP 2DROP ?DUP and DEPTH on a stack with room |
| ForthWords.DiagramsOfFour | vm/core/forth.c:193-198 | The stack diagrams of ROT and 2SWAP |
| ForthWords.WrapCongruent | vm/core/forth.c:202-215 | Sums, differences and products are kept modulo 2^64 |
| Arithmetic.Sum | vm/core/forth.c:202 | On any stack with a and b on top `+` leaves the word congruent to a + b modulo 2^64, a + b itself if it fits |
| Arithmetic.Difference | vm/core/forth.c:203 | `-` leaves a - b, b being on top, in the same sense, and `+` undoes it |
| Arithmetic.Product | vm/core/forth.c:204 | `*` leaves the product in the same sense |
| Arithmetic.Signs | vm/core/forth.c:208-209 | NEGATE and ABS leave the negation and the magnitude, exact but for the smallest number |
| Arithmetic.StepsAndDouble | vm/core/forth.c:212-214 | 1+ 1- and 2* leave the successor, the predecessor and the double, exact when they fit |
| Arithmetic.HalfDown | vm/core/forth.c:215 | 2/ leaves the floor of the half |
| Arithmetic.Equality | vm/core/forth.c:223-224 | = and <> leave -1 exactly when the numbers are equal, or differ, and else 0 |
| Arithmetic.Order | vm/core/forth.c:225-226 | < and > leave -1 exactly when the number below is smaller, or larger, than the one on top, and else 0 |
| Arithmetic.WeakOrder | vm/core/forth.c:227-228 | So do <= and >=, with equality |
| Arithmetic.ComparesWithZero | vm/core/forth.c:229-231 | 0= 0< and 0> likewise |
| Arithmetic.Extremes | vm/core/forth.c:210-211 | MIN and MAX leave one of the operands, and it bounds both |
| Arithmetic.Conjunction | vm/core/forth.c:217 | AND leaves the word whose every bit is set exactly when both are |
| Arithmetic.Disjunction | vm/core/forth.c:218 | OR, when one of them is |
| Arithmetic.ExclusiveOr | vm/core/forth.c:219 | XOR, when they differ |
| Arithmetic.Inverts | vm/core/forth.c:220 | INVERT turns every bit round |
| Arithmetic.Shifts | vm/core/forth.c:221-222 | For 0 <= n < 64 LSHIFT leaves the number times 2^n modulo 2^64, and RSHIFT the quotient by 2^n of the unsigned word |
| Arithmetic.Division | vm/core/forth.c:205-207 | / MOD and /MOD leave q, r, and r below q, with a == b * q + r, r smaller than b and of the sign of a, unless b is 0 or the quotient does not fit |
| Arithmetic.ByZero | vm/core/forth.c:205-207 | By zero they leave 0, or two zeros, above the dividend |
| Arithmetic.Trapped | vm/core/forth.c:205-207 | Only the smallest number divided by -1 traps |
| Arithmetic.StoreFetch | vm/core/forth.c:237-238 | ! takes the address from the top and the value from below it, changes that cell only, and @ gets the value back |
| Arithmetic.PlusStored | vm/core/forth.c:241 | +! adds to the cell, modulo 2^64 |
| Arithmetic.ItemsDo | vm/core/forth.c:74-76 | A number pushes itself, a constant its value, a variable the address of its cell, and a colon word does what its body does |
| Words.BitsOfAndNot | kernel/memory/heap.c:158 | The mask of kmalloc_aligned, bit by bit |
| ForthCompiler.HexNumbers | vm/core/forth.c:54-64 | In every current base 0x, 0X and $ select hexadecimal numerals, which are read back whatever the case of their letters, |
| ForthCompiler.PrefixedNumbers | vm/core/forth.c:54-64 | and # and % decimal and binary ones |
| ForthCompiler.PlainNumbers | vm/core/forth.c:54-64 | Without a prefix a numeral of the current base is read back, with letters of either case, also behind a sign |
| ForthCompiler.WordParsed | vm/core/forth.c:32-41 | parse_word skips blanks and takes the word behind them up to the next blank, the end of the text or the 63rd character; on blanks alone it finds nothing |
| ForthCompiler.SignAlone | vm/core/forth.c:54-64 | A sign alone is taken for 0; a prefix alone is no number |
| Primitives.StackWord | vm/core/forth.c:189-200 | The stack words pop and push in the order of the C functions, also on stacks that are too short or full |
| Primitives.DivisionWord | vm/core/forth.c:205-207 | The division words, which leave 0 and keep the dividend when the divisor is 0 |
| Primitives.Calculate | vm/core/forth.c:189-231 | Each stack, arithmetic, logic and comparison word computes the function that specifies it |
| Forth.Interpreter.constructor | vm/core/forth.c:19-30 | The static state: empty stacks and dictionary, interpretation, base 10 |
| Forth.Interpreter.ForthInit | vm/core/forth.c:637-638 | forth_init: clears the stacks and the dictionary and registers the primitives, keeping state and base |
| Forth.Interpreter.RegisterPrimitives | vm/core/forth.c:547-610 | register_primitives for any table of names, flags and functions |
| Forth.Interpreter.Primitive | vm/core/forth.c:237-241 | The C functions of the primitives, `@ ! +!` included, act as specified |
| Forth.Interpreter.Start | vm/core/forth.c:118-131 | The dispatch on the code field |
| Forth.Interpreter.Iteration | vm/core/forth.c:97-132 | One round of the loop of forth_inner |
| Forth.Interpreter.Inner | vm/core/forth.c:96-133 | forth_inner returns in the state its iterations lead to |
| Forth.Interpreter.ForthExecute | vm/core/forth.c:78-94 | forth_execute |
| Forth.Interpreter.FetchAdvance | vm/stack/stack.c:115-119 | Reads the cell under the instruction pointer and advances it |
| Forth.Interpreter.NextWord | vm/core/forth.c:32-41 | parse_word: skips blanks and takes at most 63 characters |
| Forth.Interpreter.ParseNumber | vm/core/forth.c:54-64 | try_parse_number with its prefixes; a sign alone is 0 |
| Forth.Interpreter.Colon | vm/core/forth.c:263-269 | w_colon |
| Forth.Interpreter.Semicolon | vm/core/forth.c:271-275 | w_semicolon |
| Forth.Interpreter.VariableNamed | vm/core/forth.c:284-287 | w_variable |
| Forth.Interpreter.ConstantNamed | vm/core/forth.c:289-295 | w_constant |
| Forth.Interpreter.ControlWord | vm/core/forth.c:387-402 | The compile-time words of control flow |
| Forth.Interpreter.RunLineToken | vm/core/forth.c:616-632 | One token of forth_eval: compile, execute, push, or give up the line |
| Forth.Interpreter.ForthEval | vm/core/forth.c:612-635 | forth_eval on the characters of a line does what evaluating its tokens in order does |
| Forth.Interpreter.SeeEntry | vm/core/forth.c:316-353 | The text w_see prints for an entry: the decompiled items of a colon word, else VARIABLE, CONSTANT or <native> |
| Forth.Interpreter.SeeWord | vm/core/forth.c:310-314 | w_see on the next name of the line, also when there is none or it is not found |
| ControlFlow.CompiledBlock | vm/core/forth.c:383-402 | Compiling any properly nested IF/ELSE/THEN, BEGIN/UNTIL, BEGIN/AGAIN, BEGIN/WHILE/REPEAT and DO/LOOP, within stack room, leaves the data stack unchanged and in the word the block's code with every branch target in place |
| ControlFlow.ControlDefines | vm/core/forth.c:383-402 | `: name block ;` adds a word with that code and leaves the data stack and older memory alone |
| ControlFlow.BranchesResolved | vm/core/forth.c:387-402 | Every branch operand holds an address inside the block or just past it, at a cell boundary, forward exactly for IF, ELSE and WHILE, backward for UNTIL, AGAIN, REPEAT and LOOP |
| ControlFlow.BranchesComplete | vm/core/forth.c:387-402 | No branch is missing from that list: wherever the code holds the address of a branch routine, the next cell is a listed operand |
| ControlFlow.PatchMeets | vm/core/forth.c:390 | THEN stores HERE in the operand whose address is on the stack, and in nothing else |
| ControlFlow.ElseMeets | vm/core/forth.c:388-389 | ELSE resolves the open branch to after its own and leaves its own open |
| ControlFlow.RepeatMeets | vm/core/forth.c:395 | REPEAT branches back to BEGIN and resolves the branch of WHILE past itself |
| ControlFlow.ControlIsNotRun | vm/core/forth.c:96-133 | forth_inner does not run control flow: executing a word with any block does what the items before its first routine of control flow mean and then returns, with the return stack and the null instruction pointer of before if and only if the block has no control flow |
| ControlFlow.LeadCode | vm/core/forth.c:387-402 | The code of a block is that of its leading items, and then nothing or the first routine of control flow |
| See.SeePrintsItems | vm/core/forth.c:329-352 | SEE prints the items of a body one by one, stepping over literals |
| See.ShownSplits | vm/core/forth.c:32-41 | The printed text splits into the printed tokens |
| See.PrintedReadsBack | vm/core/forth.c:54-64 | Every number SEE prints is read back as itself, the smallest one included |
| See.SeeRecompiles | vm/core/forth.c:310-353 | In base 10, if printed names still find the same non-immediate words and no numeral is a word name, evaluating what SEE prints defines a word of the same name with the same cells |
| See.SeeOthers | vm/core/forth.c:318-327 | Of a variable, a constant or a primitive SEE prints the name and the kind |
| See.SeeForeign | vm/core/forth.c:343-347 | A cell that is no entry, no literal and no sentinel is shown as ??? |
| See.SeeMissing | vm/core/forth.c:310-314 | Of a name that no visible word has SEE says that it is not found |
| Dictionary.RunRefines | vm/dictionary/dictionary.c:53-127 | Within the dictionary's space every run of creating entries, compiling cells and clearing the hidden bit leaves in memory exactly the list of words that the run builds |
| Dictionary.LinksDescend | vm/dictionary/dictionary.c:97-98 | Links lead strictly down to null and entries never overlap |
| Dictionary.Getters | vm/dictionary/dictionary.c:132-165 | Each getter finds the field where creation wrote it, the code field past the padded name |
| Dictionary.FindIsLookup | vm/dictionary/dictionary.c:171-201 | dict_find returns the newest visible word of that name, ignoring case, or null if there is none |
| Dictionary.NamesAgree | vm/dictionary/dictionary.c:184-193 | Names agree if and only if they have the same length and at every place the characters are equal or one is a letter a to z and the other 32 below it |
| Dictionary.SpellingsLookup | vm/dictionary/dictionary.c:171-201 | Two spellings of a name that differ in case find the same word of any list, |
| Dictionary.SpellingsFind | vm/dictionary/dictionary.c:171-201 | and dict_find the same entry in any memory |
| Dictionary.ClipKeeps | vm/dictionary/dictionary.c:88-89 | What is kept of a name are its first characters, as many as its length modulo 256 says but 31 at most |
| Dictionary.FlagBytes | vm/dictionary/dictionary.c:101-103 | The byte behind the link holds the length in its low five bits and 0x80 for an immediate, 0x40 for a hidden word |
| Dictionary.LookupIn | vm/dictionary/dictionary.c:175-198 | The newest answering word among the first n |
| Dictionary.FoundByItsName | vm/dictionary/dictionary.c:87-89 | A visible word answers to the name it was created with if and only if the name has at most 31 characters |
| Dictionary.CreateImage | vm/dictionary/dictionary.c:87-127 | dict_create and dict_set_code add one word to the list and change no other |
| Dictionary.CommaImage | vm/dictionary/dictionary.c:62-66 | dict_comma adds a cell to the newest word and changes no other |
| Dictionary.RevealImage | vm/core/forth.c:273 | Clearing the hidden bit changes nothing but that bit |
| Dictionary.PatchImage | vm/core/forth.c:390 | Overwriting one cell of a word changes nothing else |
| Dictionary.StoreImage | vm/core/forth.c:238 | Storing to a variable's cell changes no word |
| Dictionary.Dict.DictInit | vm/dictionary/dictionary.c:20-22 | HERE at the beginning of the dictionary, no newest word, all of it zeroed |
| DictMemory.DictInit | vm/dictionary/dictionary.c:19-47 | dict_init takes the lowest free run of 256 pages, maps the range of the dictionary to it, writable, and nothing else, keeps every page table out of it and zeroes the dictionary; it succeeds when the run is not at page 0, page 0 is in use and three more frames a page are spare |
| DictMemory.DictTranslates | vm/dictionary/dictionary.c:31 | Each byte of the 256 pages then translates to the byte of the run at the same offset |
| DictMemory.RangeIsRegion | vm/dictionary/dictionary.c:20-31 | The mapped range is the region of the dictionary |
| DictMemory.BootLeavesRoom | boot/paging.asm:33-101 | The boot tables map nothing where the dictionary goes |
| Dictionary.Dict.DictComma | vm/dictionary/dictionary.c:62-66 | dict_comma |
| Dictionary.Dict.DictCreate | vm/dictionary/dictionary.c:87-118 | dict_create |
| Dictionary.Dict.DictSetCode | vm/dictionary/dictionary.c:124-127 | dict_set_code |
| Dictionary.Dict.DictFind | vm/dictionary/dictionary.c:171-201 | The loop of dict_find ends at the entry the recursive search finds |
| Dictionary.Dict.Matches | vm/dictionary/dictionary.c:184-193 | The case-insensitive comparison loop |
| Dictionary.Dict.ClearHidden | vm/core/forth.c:273 | Clears F_HIDDEN in the newest entry |
| Cells.ReadWritten | vm/dictionary/dictionary.c:64 | A cell reads back as it was written |
| Cells.WrittenBytes | vm/dictionary/dictionary.c:64 | The bytes of a cell lie little end first |
| Cells.ValueInjective | vm/dictionary/dictionary.c:64 | Different bytes make different cells |
| Stacks.PopPushed | vm/stack/stack.c:12-26 | What is pushed comes back, and the stack with it, if and only if the stack was not full |
| Stacks.PickPushed | vm/stack/stack.c:33-39 | Entries are counted from the top, and what is not there reads 0 |
| Stacks.FullAndEmpty | vm/stack/stack.c:12-26 | A push changes nothing if and only if the stack holds 256 entries, a pop if and only if it holds none |
| Stacks.BoundedStack.PushTop | vm/stack/stack.c:12-18 | A push on a full stack is dropped |
| Stacks.BoundedStack.PopTop | vm/stack/stack.c:20-26 | A pop of an empty stack reads 0 |
| Stacks.BoundedStack.PickAt | vm/stack/stack.c:33-39 | A pick out of range reads 0 |
| Stacks.BoundedStack.PeekTop | vm/stack/stack.c:28-31 | The top entry, 0 if there is none |
| BlockList.RunKeepsInv | kernel/memory/heap.c:74-96 | Every run of allocations and frees keeps the blocks tiling the heap, 16-aligned payloads inside it and pairwise disjoint, and no two adjacent free blocks |
| BlockList.FirstFitIsLowestGap | kernel/memory/heap.c:80-95 | A request fails if and only if no gap between live blocks is large enough; otherwise it gets the gap of lowest address |
| BlockList.FreeingAllRestores | kernel/memory/heap.c:132-150 | Freeing every live pointer once, in any order, restores the single initial block |
| BlockList.CarveKeepsInv | kernel/memory/heap.c:83-90 | Taking a block keeps the invariant, adds exactly that block to the live ones and its size to the used bytes |
| BlockList.ReleaseKeepsInv | kernel/memory/heap.c:141-149 | Giving a block back keeps the invariant, removes exactly that block and its bytes |
| BlockList.CoalesceTiles | kernel/memory/heap.c:62-72 | Coalescing keeps the tiling and leaves no two free neighbours |
| BlockList.CoalesceKeepsLive | kernel/memory/heap.c:62-72 | Coalescing changes no live block |
| BlockList.RoundIsEnough | kernel/memory/heap.c:74-77 | A served request is rounded up to the next multiple of 16, and at least as large as asked if and only if it was for at most 2^64 - 16 bytes |
| BlockList.HugeRequestGetsNothing | kernel/memory/heap.c:74-77 | A request for 2^64 - 1 bytes on the fresh heap yields a block of no bytes |
| KernelHeap.Heap.constructor | kernel/memory/heap.c:28-45 | heap_init: marks exactly the physical pages of the heap as used and makes it one free block |
| KernelHeap.Heap.HeapSplit | kernel/memory/heap.c:47-60 | heap_split on the headers in memory |
| KernelHeap.Heap.HeapCoalesce | kernel/memory/heap.c:62-72 | heap_coalesce on the headers in memory, every live payload untouched |
| KernelHeap.Heap.Kmalloc | kernel/memory/heap.c:74-96 | kmalloc: first fit, the out-of-memory panic exactly when nothing fits, the corruption panic never, live payloads untouched |
| KernelHeap.Heap.Kfree | kernel/memory/heap.c:132-150 | kfree: gives a live block back, ignores null and free blocks, and panics with nothing changed on a pointer with no header before it |
| KernelHeap.Heap.Krealloc | kernel/memory/heap.c:107-130 | krealloc: panics exactly on a pointer with no header or when a larger block is needed and no gap fits; keeps a block that is large enough; otherwise takes the first fit, with the leading bytes those of the old payload, and gives the old block back; every other live payload untouched |
| KernelHeap.Heap.KmallocAligned | kernel/memory/heap.c:152-163 | kmalloc_aligned: for every alignment the place the mask gives lies inside the first fit, clear of the stored back pointer, and for a power of two it is a multiple; panics exactly when nothing fits |
| Masks.MaskRounds | kernel/memory/heap.c:158 | Masking with ~(a - 1) rounds down to a multiple of a power of two |
| Masks.AlignsIffPower | kernel/memory/heap.c:158 | It does so for every address if and only if the alignment is a power of two |
| KernelHeap.AlignmentOf48 | kernel/memory/heap.c:158 | With alignment 48 the first block of the heap gives an address that is no multiple of 48 |
| KernelHeap.CarveGives | kernel/memory/heap.c:74-96 | What a successful request hands out is new, live and starts where the first fit does; it is cut to the rounded size exactly when the fit has more than 96 bytes beyond it |
| KernelHeap.PayloadWrite | kernel/memory/heap.c:107-130 | Writing inside one payload disturbs no header and no other payload |
| Pmm.PageAllocator.FindFree | kernel/memory/pmm.c:28-43 | The lowest free page of the first 32 * floor(total / 32), or none if those are all used |
| Pmm.PageAllocator.FindFreeRegion | kernel/memory/pmm.c:45-59 | The leftmost free run of that many pages, or none if there is none |
| Pmm.PageAllocator.AllocPage | kernel/memory/pmm.c:107-116 | Takes the lowest page that single allocations can find and counts it; panics exactly when there is none |
| Pmm.PageAllocator.FreePage | kernel/memory/pmm.c:118-125 | Frees one page; an address outside memory or a free page changes nothing |
| Pmm.PageAllocator.AllocPages | kernel/memory/pmm.c:127-138 | Takes the leftmost run; panics exactly when there is none |
| Pmm.PageAllocator.FreePages | kernel/memory/pmm.c:140-149 | Frees a run |
| Pmm.PageAllocator.MarkRegionUsed | kernel/memory/pmm.c:151-162 | Marks exactly the pages below the limit that the loop steps on |
| Pmm.PageAllocator.MarkRegionFree | kernel/memory/pmm.c:164-174 | Frees exactly the whole pages of the region |
| Pmm.PageAllocator.Init | kernel/memory/pmm.c:61-105 | After pmm_init the pages below the highest usable end, at most 4GB, are managed, a page is used exactly when reserved or in no usable region, and the count agrees |
| Pmm.PageAllocator.CountPages | kernel/memory/pmm.c:62-74 | The loop over the regions finds that number of pages |
| Pmm.UsableIsManaged | kernel/memory/pmm.c:62-74 | Every whole page of a usable region below 4GB is managed |
| Pmm.TotalIsReached | kernel/memory/pmm.c:62-74 | The managed memory ends within a usable region and at 4GB at most |
| Pmm.FreedPages | kernel/memory/pmm.c:164-174 | Exactly the pages that lie whole in a usable region are freed by it |
| Pmm.ReservedPages | kernel/memory/pmm.c:91-95 | The reserved pages are those of the lowest 512KB, of the second megabyte and one page of bitmap for every 128MB from 2MB on |
| PageTables.PathsMeet | kernel/memory/vmm.c:110-139 | In a tree of tables a table is reached by one path only |
| PageTables.MapLeaf | kernel/memory/vmm.c:72-77 | Writing a page table entry keeps the tree and changes the translation of its path only |
| PageTables.AttachKeepsTree | kernel/memory/vmm.c:24-38 | Hanging a cleared new frame under an absent entry keeps the tables a tree with no shared frame and writable pointers |
| PageTables.AttachKeepsLookup | kernel/memory/vmm.c:24-38 | and changes no translation |
| PageTables.UnmapHuge | kernel/memory/vmm.c:81-107 | Clearing the entry of a 2MB page unmaps that page and nothing else |
| PageTables.LeafDecides | kernel/memory/vmm.c:24-38 | In such a tree a walk meets only present and writable entries if and only if it ends at a page whose own entry is writable |
| PageTables.AccessKept | kernel/memory/vmm.c:54-78 | So a path that ends where it did before is as open to writes as before |
| PageTables.SetupPaging | boot/paging.asm:33-101 | The tables the boot code writes |
| PageTables.BootTree | boot/paging.asm:33-101 | They are a tree with no shared frame, and every pointer in it is writable |
| PageTables.BootLookup | boot/paging.asm:33-101 | The first 4MB translate to themselves, the first 32MB also at the higher-half base |
| Vmm.AddressSpace.constructor | kernel/memory/vmm.c:41-51 | The boot tables, whose frames count as used, meet the invariant |
| Vmm.AddressSpace.GetPhys | kernel/memory/vmm.c:110-139 | vmm_get_phys |
| Vmm.AddressSpace.GetOrCreateTable | kernel/memory/vmm.c:24-38 | For a present entry exactly its frame, with nothing changed; otherwise a zeroed new table for the lowest spare frame, whose entry is the frame with the present and the writable bit and no other, every other word as before; null when that frame is page 0, a panic when there is none; no translation changes |
| Vmm.AddressSpace.MapPage | kernel/memory/vmm.c:54-78 | The page of virt ends at phys with the flags and every other path where it did, and off huge pages every entry on its path lets writes through if and only if the flags say so; it takes exactly the missing tables, fails exactly when one is missing and page 0 is spare, and panics exactly when spare frames run out, and then no translation changes; under a 2MB page it writes into that page, or fails if its frame is page 0, and no translation changes |
| Vmm.AddressSpace.UnmapPage | kernel/memory/vmm.c:81-107 | Removes exactly the 4KB page or the enclosing 2MB page, for every address |
| Vmm.AddressSpace.MapRange | kernel/memory/vmm.c:142-154 | Page i of the range maps to frame i for exactly the first pages, all of them when and only when it succeeds, writable if and only if the flags say so, and nothing else changes; it fails only when page 0 is spare, panics only when no frame is, and three spare frames a page suffice |
| Vmm.MappedHere | kernel/memory/vmm.c:54-78 | After mapping, every address of the page translates to the frame of phys with its own offset |
| Vmm.MappedElsewhere | kernel/memory/vmm.c:54-78 | and every address differing in bits 12-47 as before |
| Vmm.LeafEntry | kernel/memory/vmm.c:74 | The entry has the frame of phys as its address, and outside it the flags and the present bit |
| Vmm.UnmappedHugePage | kernel/memory/vmm.c:81-107 | After unmapping under a 2MB page exactly its addresses are unmapped |
| Vmm.UnmappedPage | kernel/memory/vmm.c:81-107 | Otherwise exactly those of the 4KB page |
| Vmm.InGigabytePage | kernel/memory/vmm.c:110-139 | In a 1GB page the low 30 bits of an address carry over and the others are those of the entry, |
| Vmm.InHugePage | kernel/memory/vmm.c:110-139 | in a 2MB page 21 bits, |
| Vmm.InSmallPage | kernel/memory/vmm.c:110-139 | in a 4KB page 12 |
| Vmm.RangeTranslates | kernel/memory/vmm.c:142-154 | After mapping a range, byte o of its page i translates to byte o of frame i |
| Vmm.RangeElsewhere | kernel/memory/vmm.c:142-154 | Addresses in no page of the range translate as before |
| Vmm.MappingUnderHugePageIsLost | kernel/memory/vmm.c:24-38 | Mapping under a 2MB page writes into the frame of that page; the tables stay a tree and no translation changes |
| Vmm.BootUnderHuge | kernel/memory/vmm.c:24-38 | On the boot tables this happens for every address below 4MB: mapping below 2MB fails, because the frame is page 0, and from 2MB on the mapping is lost |
| PageTables.BootNoGiant | boot/paging.asm:33-101 | The boot tables map no 1GB page, which every operation keeps |
| Crc.CalculateCrc32 | fs/block_device.c:19-28 | The loops compute the reflected CRC-32 |
| Crc.AbsorbByte | fs/block_device.c:22-25 | The inner loop takes in one byte |
| Crc.BurstDetected | fs/block_device.c:19-28 | Messages of equal length that differ only inside four consecutive bytes have different checksums |
| Crc.CheckValue | fs/block_device.c:19-28 | The checksum of the digits 1 to 9 is the published 0xCBF43926 |
| Crc.Residue | fs/block_device.c:19-28 | A message followed by its own checksum, little end first, has the checksum 0x2144DF1C |
| BlockCache.Transparent | fs/block_device.c:49-97 | For every sequence of fetches, disciplined edits and flushes, every eviction and all tick values, each fetch returns what a plain block map holds, up to the crc field, and the final contents are the map's |
| BlockCache.GetKeeps | fs/block_device.c:49-89 | A fetch changes no content, whatever it evicts, keeps the invariant and returns the block's content |
| BlockCache.EditKeeps | fs/block_device.c:91-93 | An edit of the block just fetched, then block_update, changes that block only |
| BlockCache.FlushReachesDisk | fs/block_device.c:95-97 | After block_flush the disk holds every content |
| BlockCache.WriteBufferKeeps | fs/block_device.c:36-47 | Writing a buffer back changes what no client sees and leaves it clean |
| BlockCache.WriteBufferSeals | fs/block_device.c:39-46 | Writing a dirty buffer back leaves its block on the disk with the CRC-32 of its data as crc, and every other block as it was |
| BlockCache.FlushSeals | fs/block_device.c:95-97 | block_flush leaves every block that had a dirty buffer on the disk with the CRC-32 of its data, and every other block as it was |
| BlockCache.NoFalseAlarm | fs/block_device.c:75-80 | If no block on the disk would warn at first, no load after any disciplined run warns |
| Lru.LeastRecentlyFetched | fs/block_device.c:55-68 | Over every run whose clock moves between fetches, the block that a miss drops when all buffers are taken, and it alone, is the one whose latest fetch lies farthest back |
| BlockCache.InitInv | fs/block_device.c:30-34 | After block_init the contents are the disk's |
| BlockCache.DecodeEncode | fs/block_device.c:36-47 | A block survives its two sectors |
| BlockCache.EncodeDecode | fs/block_device.c:36-47 | and two sectors survive being read as a block |
| BlockCache.BlockLayout | fs/block_device.h:13-24 | Where the fields of a block lie in its sectors, each little end first |
| BlockCache.LowNumbersAliasFree | fs/block_device.c:42 | Block numbers below 2^27 have sectors of their own |
| BlockCache.AliasesClash | fs/block_device.c:42 | Without that, storing one of two aliases changes what the other reads |
| BlockCache.CorruptionIsFlagged | fs/block_device.c:75-80 | A block written back loads without a warning; if the data on the disk then changes inside four consecutive bytes, the load warns if and only if the checksum of the data that was written is not 0 |
| BlockDevice.Device.BlockGet | fs/block_device.c:49-89 | block_get, with the least recently used victim |
| BlockDevice.Device.FindVictim | fs/block_device.c:58-68 | The first invalid buffer, else the first of the oldest |
| BlockDevice.Device.WriteBufferToDisk | fs/block_device.c:36-47 | write_buffer_to_disk |
| BlockDevice.Device.BlockUpdate | fs/block_device.c:91-93 | Marks the buffer fetched last dirty if it is valid, and does nothing otherwise |
| BlockDevice.Device.BlockFlush | fs/block_device.c:95-97 | block_flush |
| BlockDevice.Device.BlockInit | fs/block_device.c:30-34 | block_init |
| FileSystem.AllocationsInOrder | fs/filesystem.c:33-59 | In every run of allocations, restarts through fs_init and disciplined cache traffic that does not store to the superblock or the bitmap, on a formatted disk, the i-th allocation returns the i-th next number up to 8063 and from then on panics |
| FileSystem.AllocNext | fs/filesystem.c:42-59 | An allocation returns the next number or panics when all are taken |
| FileSystem.FormatFormats | fs/filesystem.c:12-31 | After fs_format blocks 0 to 4 are taken and the superblock is recognised |
| FileSystem.FormatLayout | fs/filesystem.c:12-31 | The bytes fs_format leaves on the disk: magic number and block count in sector 1026, the bits of blocks 0 to 4 in sector 1028, zeros else |
| FileSystem.RebootKeeps | fs/filesystem.c:33-40 | A flush and a new start of the cache lose nothing |
| FileSystem.FsInitKeeps | fs/filesystem.c:33-40 | fs_init keeps every content of a recognised disk and formats any other |
| FileSystem.RestartKeeps | fs/filesystem.c:33-40 | After a restart of a formatted disk fs_init recognises the superblock and formats nothing |
| FileSystem.RestartFormats | fs/filesystem.c:33-40 | After a restart with the superblock overwritten fs_init formats, and the next allocation returns 5 again |
| FileSystem.FilledStep | fs/filesystem.c:44-56 | With blocks 0 to k-1 in use the search finds k |
| FileSystem.FindClear | fs/filesystem.c:45-55 | The nested search loop finds the first clear bit |
| FileSystem.FsFormat | fs/filesystem.c:12-31 | fs_format |
| FileSystem.FsInit | fs/filesystem.c:33-40 | fs_init formats unless the superblock is recognised |
| FileSystem.FsAllocBlock | fs/filesystem.c:42-59 | fs_alloc_block |
| TaskRing.StepKeepsInv | kernel/scheduler/task.c:22-76 | Only the current task can be RUNNING, after every yield, exit and creation |
| TaskRing.DeadNeverRuns | kernel/scheduler/task.c:22-26 | A DEAD task that has been left never runs again |
| TaskRing.SwitchApproaches | kernel/scheduler/task.c:58-76 | Each switch brings the processor nearer to any READY task |
| TaskRing.RunsWithinDistance | kernel/scheduler/task.c:58-76 | With no creation in between, a READY task runs within as many switches as its distance in the ring |
| Scheduler.TaskList.constructor | kernel/scheduler/task.c:12-20 | scheduler_init |
| Scheduler.TaskList.TaskCreate | kernel/scheduler/task.c:28-56 | task_create inserts the new task before task_list, keeping one cycle through all tasks |
| Scheduler.TaskList.FindLast | kernel/scheduler/task.c:48-51 | The loop of task_create ends at the task that links back to task_list |
| Scheduler.TaskList.FindNext | kernel/scheduler/task.c:61-67 | The search of yield ends at the next READY task or at the current one; the break is never taken |
| Scheduler.TaskList.Yield | kernel/scheduler/task.c:58-76 | yield |
| Scheduler.TaskList.TaskExit | kernel/scheduler/task.c:22-26 | task_exit up to its idle loop |
| ContextSwitch.Processor.SwitchContext | kernel/scheduler/switch.asm:14-44 | switch_context saves the registers, flags and stack pointer and resumes the other frame |
| ContextSwitch.Processor.FirstFrame | kernel/scheduler/task.c:34-46 | The first frame of a new task: task_exit, entry, flags with interrupts enabled, zeroed registers |
| ContextSwitch.ResumeSaved | kernel/scheduler/switch.asm:14-44 | What is saved is what will be resumed; nothing else changes |
| ContextSwitch.NextKeepsInv | kernel/scheduler/task.c:58-76 | Every event keeps stacks disjoint and every waiting frame whole |
| ContextSwitch.RunKeepsInv | kernel/scheduler/task.c:58-76 | So does every run of events from a state with the invariant |
| ContextSwitch.WaitingKeeps | kernel/scheduler/task.c:58-76 | While a task waits, whatever the others do, its saved frame and stack stay |
| ContextSwitch.ResumedAsYielded | kernel/scheduler/switch.asm:14-44 | Over any run in which no task writes to the stack of another, a resumed task has the registers, flags, stack pointer, return address and stack it had when it yielded |
| ContextSwitch.NewTaskStarts | kernel/scheduler/task.c:28-46 | Whatever runs before, a new task starts at its entry with task_exit as its return address |
| Numbers.StrtoulInvertsUltoa | kernel/utils/stdlib.c:118-146 | For every u64 and base 2 to 36 strtoul reads back what ultoa printed, all of it, also with letters in capitals |
| Numbers.StrtolInvertsLtoa | kernel/utils/stdlib.c:148-193 | In base 10 strtol reads back what ltoa printed, for the smallest number by wrap-around |
| Numbers.StrtoulReadsLtoa | kernel/utils/stdlib.c:79-116 | In any other base ltoa prints the two's complement of a negative number, and strtoul reads that |
| Numbers.CaseIgnored | kernel/utils/stdlib.c:148-233 | Texts that differ in the case of letters only read alike in strtol and in strtoul, in every base |
| Numbers.StrtolReads | kernel/utils/stdlib.c:148-193 | strtol reads blanks, a sign or none and a numeral, in any base, as the signed number, up to the end |
| Numbers.StrtoulReads | kernel/utils/stdlib.c:195-233 | and strtoul, with a plus sign or none, as the number modulo 2^64, however long it is |
| Numbers.BaseFromPrefix | kernel/utils/stdlib.c:201-213 | With base 0 a leading 0x or 0X selects hexadecimal, 0 octal, and decimal is read otherwise |
| Numbers.SkipBlank | kernel/utils/stdlib.c:152 | Leading blanks are skipped, and nothing else is |
| Numbers.NumeralLength | kernel/utils/stdlib.c:118-146 | The number of digits is the least k >= 1 with base^k above the value |
| Numbers.BufferSizes | kernel/utils/stdlib.c:79-116 | 17 bytes suffice in base 16, 21 in base 10 |
| Numbers.Ultoa | kernel/utils/stdlib.c:118-146 | ultoa fills and reverses the digits in place |
| Numbers.Ltoa | kernel/utils/stdlib.c:79-116 | ltoa |
| Numbers.Strtoul | kernel/utils/stdlib.c:195-233 | strtoul |
| Numbers.Strtol | kernel/utils/stdlib.c:148-193 | strtol |

## Left out

Weaker contracts:

- KernelHeap.Heap.Krealloc: for null, live pointers and pointers with no header before them, and for new sizes up to 2^64 - 16 only; beyond that the rounding of kmalloc wraps and the new block is too small (`BlockList.HugeRequestGetsNothing`).
- KernelHeap.Heap.Kfree: not for pointers into a payload that holds a left-over header or the magic number at the right place, which the code takes for a block; what the list of blocks then is depends on the payload.
- KernelHeap.Heap.KmallocAligned: for positive alignments and sums that do not wrap; for an alignment that is no power of two the address need not be a multiple of it (`Masks.AlignsIffPower`, `KernelHeap.AlignmentOf48`).
- Vmm.AddressSpace.MapPage: for flags outside the address bits, as all callers pass; not under a 2MB page whose frame is itself a page table, where the write would change that table.
- Vmm.AddressSpace.MapRange: requires a page-aligned range, no huge page under it, and a length that the count of pages does not wrap.
- CompileProofs.CompilingPreservesMeaning: requires room on the return stack for the nesting of calls plus one and room in the dictionary, because the code drops pushes on a full stack and never checks dictionary space; names of more than 31 characters are not found again (`Dictionary.FoundByItsName`).
- ControlFlow.ControlDefines: compile time only, because forth_inner does not run the cells it compiles (`ControlFlow.ControlIsNotRun`).
- ControlFlow.ControlIsNotRun: for leading items that mean something, and with the run-time routines outside the dictionary.
- ControlFlow.BranchesComplete: supposes that the branch routines lie outside the dictionary and differ from the other routines, and that no plain cell, a literal say, happens to equal their addresses.
- Session.SessionTerminates: phrases of the fragment only, each within the dictionary's space and, when run at once, within the return stack; a definition with control flow has to stand on one line.
- Pmm.PageAllocator.MarkRegionUsed: states the pages the loop steps on, which cover the region only when its base is page-aligned, as callers make it.

Not modelled:

- Signed overflow is undefined in C; here it wraps, as on the machine, which the round trips of the smallest number in `Numbers.StrtolInvertsLtoa` and `See.PrintedReadsBack` rest on. Shift counts are taken modulo 64.
- Output: stack error messages, `.`, EMIT, TYPE, .S and the other printing words.
- Words that touch raw addresses or interpreter state: C@ C! `,` C, ALLOT HERE >R R> R@ I EXECUTE LOAD FORK HEX DECIMAL BASE IMMEDIATE ' CREATE and the comment words; memory outside the dictionary is not part of the Forth model.
- EXECUTE inside a compiled body, which returns to the outer loop with a null instruction pointer.
- The run-time routines of control flow, which the inner interpreter never reaches.
- The SIMD words, the REPL, the block editor, WORDS, DUMP and STATUS.
- The memory of the heap is a map of words with the header fields as whole cells, not bytes.
- Physical memory is taken to be accessible to the table walker, although boot maps only part of it; the TLB and vmm_is_mapped are not modelled.
- memset, memcpy and strlen are their effect on sequences; the rest of string.c is left out, as are itoa, utoa and atoi.
- kcalloc, the statistics functions and logging.
- The disk controller is a map of sectors without errors; ticks are parameters.
- A null current_task before scheduler_init; the idle loop of task_exit and freeing of dead tasks, which the code does not do either.
- Interrupts, the keyboard buffer, drivers, descriptor tables and the boot loader up to the page tables.
