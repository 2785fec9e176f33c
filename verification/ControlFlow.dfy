/**
  vm/core/forth.c, lines 383-402: the control-flow words leave every branch with the right target.
 */
module ControlFlow {
  import opened Cells
  import opened Dictionary
  import opened Numbers
  import opened Stacks
  import opened ForthWords
  import opened ForthMachine
  import opened ForthCompiler
  import opened CompileProofs
  import opened Width

  // ----- nested control structures -----

  datatype Block = Nil | Cons(head: Stmt, tail: Block)

  datatype Stmt =
    | Plain(tok: Text, it: Item)
    | IfThen(yes: Block)
    | IfElse(yes: Block, no: Block)
    | BeginUntil(body: Block)
    | BeginAgain(body: Block)
    | BeginWhile(test: Block, body: Block)
    | DoLoop(body: Block)

  function Spelling(c: Control): Text {
    match c
    case If => "IF"
    case Else => "ELSE"
    case Then => "THEN"
    case Begin => "BEGIN"
    case Until => "UNTIL"
    case Again => "AGAIN"
    case While => "WHILE"
    case Repeat => "REPEAT"
    case Do => "DO"
    case Loop => "LOOP"
  }

  function Toks(b: Block): seq<Text> {
    match b
    case Nil => []
    case Cons(s, rest) => StmtToks(s) + Toks(rest)
  }

  function StmtToks(s: Stmt): seq<Text> {
    match s
    case Plain(tok, _) => [tok]
    case IfThen(yes) => [Spelling(If)] + Toks(yes) + [Spelling(Then)]
    case IfElse(yes, no) => [Spelling(If)] + Toks(yes) + [Spelling(Else)] + Toks(no) + [Spelling(Then)]
    case BeginUntil(body) => [Spelling(Begin)] + Toks(body) + [Spelling(Until)]
    case BeginAgain(body) => [Spelling(Begin)] + Toks(body) + [Spelling(Again)]
    case BeginWhile(test, body) => [Spelling(Begin)] + Toks(test) + [Spelling(While)] + Toks(body) + [Spelling(Repeat)]
    case DoLoop(body) => [Spelling(Do)] + Toks(body) + [Spelling(Loop)]
  }

  /** The plain tokens stand for their items. */
  predicate Spelled(words: seq<Word>, base: nat, b: Block) {
    match b
    case Nil => true
    case Cons(s, rest) => StmtSpelled(words, base, s) && Spelled(words, base, rest)
  }

  predicate StmtSpelled(words: seq<Word>, base: nat, s: Stmt) {
    match s
    case Plain(tok, it) => CallBelow(it, |words|) && Resolve(words, base, tok) == Some(it)
    case IfThen(yes) => Spelled(words, base, yes)
    case IfElse(yes, no) => Spelled(words, base, yes) && Spelled(words, base, no)
    case BeginUntil(body) => Spelled(words, base, body)
    case BeginAgain(body) => Spelled(words, base, body)
    case BeginWhile(test, body) => Spelled(words, base, test) && Spelled(words, base, body)
    case DoLoop(body) => Spelled(words, base, body)
  }

  // ----- the code they stand for -----

  /** A branch and its operand. */
  function Two(code: nat, target: nat): seq<nat> { [code, target] }

  /** Cells of the compiled block. */
  function Size(b: Block): nat {
    match b
    case Nil => 0
    case Cons(s, rest) => StmtSize(s) + Size(rest)
  }

  function StmtSize(s: Stmt): nat {
    match s
    case Plain(_, it) => if it.Lit? then 2 else 1
    case IfThen(yes) => 2 + Size(yes)
    case IfElse(yes, no) => 4 + Size(yes) + Size(no)
    case BeginUntil(body) => Size(body) + 2
    case BeginAgain(body) => Size(body) + 2
    case BeginWhile(test, body) => Size(test) + 4 + Size(body)
    case DoLoop(body) => 3 + Size(body)
  }

  /** The block's code at address a, every branch with its target in place. */
  function BlockCode(k: Link, words: seq<Word>, base: nat, b: Block, a: nat): (c: seq<nat>)
    requires Spelled(words, base, b)
    ensures |c| == Size(b)
  {
    match b
    case Nil => []
    case Cons(s, rest) => StmtCode(k, words, base, s, a) + BlockCode(k, words, base, rest, a + 8 * StmtSize(s))
  }

  function StmtCode(k: Link, words: seq<Word>, base: nat, s: Stmt, a: nat): (c: seq<nat>)
    requires StmtSpelled(words, base, s)
    ensures |c| == StmtSize(s)
  {
    match s
    case Plain(_, it) => CellsOf(k, words, it)
    case IfThen(yes) =>
      Two(k.zeroBranch, a + 16 + 8 * Size(yes)) + BlockCode(k, words, base, yes, a + 16)
    case IfElse(yes, no) =>
      var other := a + 32 + 8 * Size(yes);
      Two(k.zeroBranch, other) + BlockCode(k, words, base, yes, a + 16)
      + Two(k.branch, other + 8 * Size(no)) + BlockCode(k, words, base, no, other)
    case BeginUntil(body) => BlockCode(k, words, base, body, a) + Two(k.zeroBranch, a)
    case BeginAgain(body) => BlockCode(k, words, base, body, a) + Two(k.branch, a)
    case BeginWhile(test, body) =>
      var inner := a + 16 + 8 * Size(test);
      BlockCode(k, words, base, test, a) + Two(k.zeroBranch, inner + 16 + 8 * Size(body))
      + BlockCode(k, words, base, body, inner) + Two(k.branch, a)
    case DoLoop(body) => [k.enter] + BlockCode(k, words, base, body, a + 8) + Two(k.loop, a + 8)
  }

  /** Entries the compiler needs on the data stack. */
  function Room(b: Block): nat {
    match b
    case Nil => 0
    case Cons(s, rest) => Max(StmtRoom(s), Room(rest))
  }

  function Max(x: nat, y: nat): nat { if x > y then x else y }

  function StmtRoom(s: Stmt): nat {
    match s
    case Plain(_, _) => 0
    case IfThen(yes) => 1 + Room(yes)
    case IfElse(yes, no) => 1 + Max(Room(yes), Room(no))
    case BeginUntil(body) => 1 + Room(body)
    case BeginAgain(body) => 1 + Room(body)
    case BeginWhile(test, body) => Max(1 + Room(test), 2 + Room(body))
    case DoLoop(body) => 1 + Room(body)
  }

  // ----- single steps of the compiler -----

  ghost predicate HasControls(k: Link, words: seq<Word>) {
    forall c: Control :: HasImmediate(k, words, Spelling(c), Flow(c))
  }

  /** Word w is being compiled. */
  ghost predicate Compiling(m: Machine, words: seq<Word>, w: Word) {
    Image(m.dict, words + [w]) && Hidden(w.flags) && w.room == 0 && m.mode == Compile
  }

  /** From m to n only the data stack moved and the dictionary grew. */
  ghost predicate Moved(m: Machine, n: Machine, from: nat) {
    Grew(m, n.(ds := m.ds), from)
  }

  lemma MovedTwice(m: Machine, n: Machine, o: Machine, from: nat, later: nat)
    requires Moved(m, n, from) && Moved(n, o, later) && from <= later
    ensures Moved(m, o, from)
  {
    SamePart(n.dict.mem, o.dict.mem, BASE, later, BASE, from);
    SameTwice(m.dict.mem, n.dict.mem, o.dict.mem, BASE, from);
  }

  /** Addresses survive the data stack. */
  lemma AddressOnStack(a: nat)
    requires a < TWO64
    ensures Unsigned(Wrap(a)) == a
  {
  }

  lemma ControlToken(k: Link, m: Machine, words: seq<Word>, w: Word, toks: seq<Text>, c: Control, fuel: nat)
    requires Compiling(m, words, w) && toks != [] && HasImmediate(k, words, toks[0], Flow(c))
    ensures Step(k, m, toks, fuel) == (ControlStep(k, m, c), toks[1..])
  {
    hide Execute, ControlStep, Find, TryNumber;
    LookupKept(k, words, w, toks[0], Flow(c));
    RunsRoutine(k, m, words + [w], toks, Flow(c), fuel);
  }

  lemma HereIs(m: Machine, words: seq<Word>, w: Word)
    requires Compiling(m, words, w)
    ensures m.dict.here == CellAddr(w, |w.cells|) && BASE <= m.dict.here <= LIMIT
  {
    TopAligned(m.dict, words + [w]);
  }

  lemma BeginMeets(m: Machine, words: seq<Word>, w: Word)
    requires Compiling(m, words, w)
    ensures Compiling(PushHere(m), words, w) && Moved(m, PushHere(m), m.dict.here)
  {
  }

  lemma DoMeets(k: Link, m: Machine, words: seq<Word>, w: Word)
    requires Compiling(m, words, w) && m.dict.here + 8 <= LIMIT
    ensures ControlStep(k, m, Do).Some?
    ensures var n := ControlStep(k, m, Do).value;
            && Compiling(n, words, Longer(w, [k.enter])) && Moved(m, n, m.dict.here)
            && n.dict.here == m.dict.here + 8 && n.ds == Push(m.ds, Wrap(m.dict.here + 8))
  {
    CommaMeets(m, words, w, k.enter);
  }

  lemma OpenMeets(m: Machine, words: seq<Word>, w: Word, code: nat)
    requires Compiling(m, words, w) && code < TWO64 && m.dict.here + 16 <= LIMIT
    ensures OpenBranch(m, code).Some?
    ensures var n := OpenBranch(m, code).value;
            && Compiling(n, words, Longer(w, Two(code, 0))) && Moved(m, n, m.dict.here)
            && n.dict.here == m.dict.here + 16 && n.ds == Push(m.ds, Wrap(m.dict.here + 8))
  {
    CommaMeets(m, words, w, code);
    var o := PushHere(CommaTo(m, code).value);
    CommaMeets(o, words, Longer(w, [code]), 0);
    assert Longer(Longer(w, [code]), [0]) == Longer(w, Two(code, 0));
    MovedTwice(m, o, CommaTo(o, 0).value, m.dict.here, o.dict.here);
  }

  lemma BackMeets(m: Machine, words: seq<Word>, w: Word, code: nat, s: Data, a: nat)
    requires Compiling(m, words, w) && code < TWO64 && m.dict.here + 16 <= LIMIT && a < TWO64
    requires |s| < STACK_SIZE && m.ds == Push(s, Wrap(a))
    ensures BranchBack(m, code).Some?
    ensures var n := BranchBack(m, code).value;
            && Compiling(n, words, Longer(w, Two(code, a))) && Moved(m, n, m.dict.here)
            && n.dict.here == m.dict.here + 16 && n.ds == s
  {
    PopPushed(s, Wrap(a), 0);
    AddressOnStack(a);
    CommaTwoMeets(m.(ds := s), words, w, code, a);
  }

  /** The cell with one operand filled in. */
  function Patched(w: Word, j: nat, v: nat): Word
    requires j < |w.cells|
  {
    w.(cells := w.cells[j := v])
  }

  lemma PatchMeets(m: Machine, words: seq<Word>, w: Word, j: nat, s: Data)
    requires Compiling(m, words, w) && j < |w.cells| && |s| < STACK_SIZE && m.ds == Push(s, Wrap(CellAddr(w, j)))
    ensures PatchHere(m).Some?
    ensures var n := PatchHere(m).value;
            && Compiling(n, words, Patched(w, j, m.dict.here)) && Moved(m, n, CellAddr(w, j))
            && n.dict.here == m.dict.here && n.ds == s
  {
    var a := CellAddr(w, j);
    HereIs(m, words, w);
    PopPushed(s, Wrap(a), 0);
    AddressOnStack(a);
    var ws := words + [w];
    PatchImage(m.dict, ws, |words|, j, m.dict.here);
    assert ws[|words| := Patched(w, j, m.dict.here)] == words + [Patched(w, j, m.dict.here)];
    WriteElsewhere(m.dict.mem, a, m.dict.here, BASE, a);
  }

  lemma LongerTwice(w: Word, c: seq<nat>, d: seq<nat>)
    ensures Longer(Longer(w, c), d) == Longer(w, c + d)
  {
    assert w.cells + c + d == w.cells + (c + d);
  }

  /** Filling in the operand of a branch that other code has followed. */
  lemma PatchInside(w: Word, head: seq<nat>, code: nat, target: nat, d: seq<nat>, j: nat)
    requires j == |w.cells| + |head| + 1
    ensures j < |Longer(Longer(w, head + Two(code, 0)), d).cells|
    ensures Patched(Longer(Longer(w, head + Two(code, 0)), d), j, target) == Longer(w, head + Two(code, target) + d)
  {
    assert (w.cells + (head + Two(code, 0)) + d)[j := target] == w.cells + (head + Two(code, target) + d);
  }

  lemma PatchFirst(w: Word, code: nat, target: nat, d: seq<nat>, j: nat)
    requires j == |w.cells| + 1
    ensures j < |Longer(Longer(w, Two(code, 0)), d).cells|
    ensures Patched(Longer(Longer(w, Two(code, 0)), d), j, target) == Longer(w, Two(code, target) + d)
  {
    PatchInside(w, [], code, target, d, j);
    assert [] + Two(code, 0) == Two(code, 0) && [] + Two(code, target) == Two(code, target);
  }

  lemma ElseMeets(k: Link, m: Machine, words: seq<Word>, w: Word, j: nat, s: Data)
    requires Compiling(m, words, w) && j < |w.cells| && |s| < STACK_SIZE && m.ds == Push(s, Wrap(CellAddr(w, j)))
    requires m.dict.here + 16 <= LIMIT
    ensures ElseStep(k, m).Some?
    ensures var n := ElseStep(k, m).value;
            && Compiling(n, words, Patched(Longer(w, Two(k.branch, 0)), j, m.dict.here + 16))
            && Moved(m, n, CellAddr(w, j))
            && n.dict.here == m.dict.here + 16 && n.ds == Push(s, Wrap(m.dict.here + 8))
  {
    hide PatchHere;
    HereIs(m, words, w);
    CommaMeets(m, words, w, k.branch);
    var o := CommaTo(m, k.branch).value;
    CommaMeets(o, words, Longer(w, [k.branch]), 0);
    var p, u := CommaTo(o, 0).value, Longer(w, Two(k.branch, 0));
    assert Longer(Longer(w, [k.branch]), [0]) == u;
    GrewTwice(m, o, p, m.dict.here);
    assert CellAddr(u, j) == CellAddr(w, j);
    PatchMeets(p, words, u, j, s);
    MovedTwice(p, PatchHere(p).value, ElseStep(k, m).value, CellAddr(w, j), CellAddr(w, j));
    SamePart(m.dict.mem, p.dict.mem, BASE, m.dict.here, BASE, CellAddr(w, j));
    SameTwice(m.dict.mem, p.dict.mem, ElseStep(k, m).value.dict.mem, BASE, CellAddr(w, j));
  }

  lemma RepeatMeets(k: Link, m: Machine, words: seq<Word>, w: Word, j: nat, s: Data, a: nat)
    requires Compiling(m, words, w) && j < |w.cells| && |s| + 2 <= STACK_SIZE && a < TWO64
    requires m.ds == Push(Push(s, Wrap(a)), Wrap(CellAddr(w, j))) && m.dict.here + 16 <= LIMIT
    ensures RepeatStep(k, m).Some?
    ensures var n := RepeatStep(k, m).value;
            && Compiling(n, words, Patched(Longer(w, Two(k.branch, a)), j, m.dict.here + 16))
            && Moved(m, n, CellAddr(w, j)) && n.dict.here == m.dict.here + 16 && n.ds == s
  {
    hide PatchHere;
    var v, t: Data := Wrap(CellAddr(w, j)), Push(s, Wrap(a));
    HereIs(m, words, w);
    PopPushed(t, v, 0);
    PopPushed(s, Wrap(a), 0);
    AddressOnStack(a);
    var q := m.(ds := s);
    CommaTwoMeets(q, words, w, k.branch, a);
    var p, u := CommaTwo(q, k.branch, a).value, Longer(w, Two(k.branch, a));
    assert CellAddr(u, j) == CellAddr(w, j);
    var r := p.(ds := Push(p.ds, v));
    PatchMeets(r, words, u, j, s);
    SamePart(m.dict.mem, r.dict.mem, BASE, m.dict.here, BASE, CellAddr(w, j));
    SameTwice(m.dict.mem, r.dict.mem, PatchHere(r).value.dict.mem, BASE, CellAddr(w, j));
  }

  // ----- compiling a block -----

  /** Compiling the block from m leads to n: its code is in the word, with every target right, and the data
      stack is as it was. */
  ghost predicate Done(k: Link, m: Machine, n: Machine, words: seq<Word>, w: Word, code: seq<nat>) {
    && Compiling(n, words, Longer(w, code)) && Grew(m, n, m.dict.here) && n.dict.here == m.dict.here + 8 * |code|
  }

  lemma DoneTwice(k: Link, m: Machine, n: Machine, o: Machine, words: seq<Word>, w: Word, c: seq<nat>, d: seq<nat>)
    requires Done(k, m, n, words, w, c) && Done(k, n, o, words, Longer(w, c), d)
    ensures Done(k, m, o, words, w, c + d)
  {
    assert Longer(Longer(w, c), d) == Longer(w, c + d);
    GrewTwice(m, n, o, m.dict.here);
  }

  ghost predicate Ready(k: Link, m: Machine, words: seq<Word>, w: Word, size: nat, room: nat) {
    && Compiling(m, words, w) && HasControls(k, words)
    && m.dict.here + 8 * size <= LIMIT && |m.ds| + room <= STACK_SIZE
  }

  /** Compiling any properly nested block leaves the data stack unchanged and every branch resolved. */
  lemma {:induction false} CompiledBlock(k: Link, m: Machine, words: seq<Word>, w: Word, b: Block,
                                         rest: seq<Text>, fuel: nat) returns (n: Machine)
    requires Ready(k, m, words, w, Size(b), Room(b)) && Spelled(words, m.base, b)
    ensures Eval(k, m, Toks(b) + rest, fuel) == Eval(k, n, rest, fuel)
    ensures Done(k, m, n, words, w, BlockCode(k, words, m.base, b, m.dict.here))
    decreases b, 0
  {
    hide Step, Eval, Image, Compiling, CellsOf, AlignUp, OpenBranch, PatchHere, BranchBack, ElseStep, RepeatStep;
    hide Spelling, StmtToks, StmtCode, StmtSize, StmtRoom, StmtSpelled;
    match b
    case Nil =>
      n := m;
      assert Toks(b) + rest == rest && Longer(w, []) == w;
    case Cons(s, more) =>
      assert Toks(b) + rest == StmtToks(s) + (Toks(more) + rest);
      var o := CompiledStmt(k, m, words, w, s, Toks(more) + rest, fuel);
      var c := StmtCode(k, words, m.base, s, m.dict.here);
      n := CompiledBlock(k, o, words, Longer(w, c), more, rest, fuel);
      DoneTwice(k, m, o, n, words, w, c, BlockCode(k, words, m.base, more, o.dict.here));
  }

  lemma {:induction false} CompiledStmt(k: Link, m: Machine, words: seq<Word>, w: Word, s: Stmt,
                                        rest: seq<Text>, fuel: nat) returns (n: Machine)
    requires Ready(k, m, words, w, StmtSize(s), StmtRoom(s)) && StmtSpelled(words, m.base, s)
    ensures Eval(k, m, StmtToks(s) + rest, fuel) == Eval(k, n, rest, fuel)
    ensures Done(k, m, n, words, w, StmtCode(k, words, m.base, s, m.dict.here))
    decreases s, 1
  {
    hide Step, Eval, Image, AlignUp, OpenBranch, PatchHere, BranchBack, ElseStep, RepeatStep, Spelling, Compiling;
    hide Done, Size, Room, BlockCode, Spelled, Toks, CellsOf, HasControls;
    match s
    case Plain(tok, it) => n := CompiledPlain(k, m, words, w, tok, it, rest, fuel);
    case IfThen(yes) => n := CompiledIf(k, m, words, w, yes, rest, fuel);
    case IfElse(yes, no) => n := CompiledIfElse(k, m, words, w, yes, no, rest, fuel);
    case BeginUntil(body) => n := CompiledLoop(k, m, words, w, body, Until, k.zeroBranch, rest, fuel);
    case BeginAgain(body) => n := CompiledLoop(k, m, words, w, body, Again, k.branch, rest, fuel);
    case BeginWhile(test, body) => n := CompiledWhile(k, m, words, w, test, body, rest, fuel);
    case DoLoop(body) => n := CompiledDo(k, m, words, w, body, rest, fuel);
  }

  lemma CompiledPlain(k: Link, m: Machine, words: seq<Word>, w: Word, tok: Text, it: Item,
                      rest: seq<Text>, fuel: nat) returns (n: Machine)
    requires var s := Plain(tok, it);
             Ready(k, m, words, w, StmtSize(s), StmtRoom(s)) && StmtSpelled(words, m.base, s)
    ensures Eval(k, m, [tok] + rest, fuel) == Eval(k, n, rest, fuel)
    ensures Done(k, m, n, words, w, CellsOf(k, words, it))
  {
    hide Step, Eval, Image, AlignUp, Spelling;
    assert |CellsOf(k, words, it)| == StmtSize(Plain(tok, it));
    n := CompiledOne(k, m, words, w, [tok] + rest, it, fuel);
    EvalStep(k, m, tok, rest, n, fuel);
  }

  /** Evaluating goes on after a token that has been dealt with. */
  lemma EvalStep(k: Link, m: Machine, tok: Text, rest: seq<Text>, n: Machine, fuel: nat)
    requires Step(k, m, [tok] + rest, fuel) == (Some(n), rest)
          || Step(k, m, [tok] + rest, fuel) == (Some(n), ([tok] + rest)[1..])
    ensures Eval(k, m, [tok] + rest, fuel) == Eval(k, n, rest, fuel)
  {
    hide Step;
    assert ([tok] + rest)[1..] == rest;
  }

  /** A control-flow token runs its step of the compiler. */
  lemma EvalControl(k: Link, m: Machine, words: seq<Word>, w: Word, c: Control, rest: seq<Text>, fuel: nat)
    requires Compiling(m, words, w) && HasControls(k, words) && ControlStep(k, m, c).Some?
    ensures Eval(k, m, [Spelling(c)] + rest, fuel) == Eval(k, ControlStep(k, m, c).value, rest, fuel)
  {
    hide Step, ControlStep, Spelling;
    ControlToken(k, m, words, w, [Spelling(c)] + rest, c, fuel);
    EvalStep(k, m, Spelling(c), rest, ControlStep(k, m, c).value, fuel);
  }

  lemma Regrouped(a: seq<Text>, b: seq<Text>, c: seq<Text>, d: seq<Text>)
    ensures a + b + c + d == a + (b + (c + d))
  {
  }

  lemma RegroupedAll(a: seq<Text>, b: seq<Text>, c: seq<Text>, d: seq<Text>, e: seq<Text>, f: seq<Text>)
    ensures a + b + c + d + e + f == a + (b + (c + (d + (e + f))))
  {
  }

  lemma IfParts(k: Link, words: seq<Word>, base: nat, yes: Block, a: nat, rest: seq<Text>)
    requires Spelled(words, base, yes)
    ensures StmtToks(IfThen(yes)) + rest == [Spelling(If)] + (Toks(yes) + ([Spelling(Then)] + rest))
    ensures StmtSpelled(words, base, IfThen(yes))
    ensures StmtCode(k, words, base, IfThen(yes), a) ==
            Two(k.zeroBranch, a + 16 + 8 * Size(yes)) + BlockCode(k, words, base, yes, a + 16)
  {
    hide Spelling, Toks, BlockCode, Spelled, Size, CellsOf;
    Regrouped([Spelling(If)], Toks(yes), [Spelling(Then)], rest);
  }

  lemma IfElseParts(k: Link, words: seq<Word>, base: nat, yes: Block, no: Block, a: nat, rest: seq<Text>)
    requires Spelled(words, base, yes) && Spelled(words, base, no)
    ensures StmtToks(IfElse(yes, no)) + rest ==
            [Spelling(If)] + (Toks(yes) + ([Spelling(Else)] + (Toks(no) + ([Spelling(Then)] + rest))))
    ensures StmtSpelled(words, base, IfElse(yes, no))
    ensures var other := a + 32 + 8 * Size(yes);
            StmtCode(k, words, base, IfElse(yes, no), a) ==
            Two(k.zeroBranch, other) + BlockCode(k, words, base, yes, a + 16)
            + Two(k.branch, other + 8 * Size(no)) + BlockCode(k, words, base, no, other)
  {
    hide Spelling, Toks, BlockCode, Spelled, Size, CellsOf;
    RegroupedAll([Spelling(If)], Toks(yes), [Spelling(Else)], Toks(no), [Spelling(Then)], rest);
  }

  lemma DoParts(k: Link, words: seq<Word>, base: nat, body: Block, a: nat, rest: seq<Text>)
    requires Spelled(words, base, body)
    ensures StmtToks(DoLoop(body)) + rest == [Spelling(Do)] + (Toks(body) + ([Spelling(Loop)] + rest))
    ensures StmtSpelled(words, base, DoLoop(body))
    ensures StmtCode(k, words, base, DoLoop(body), a) ==
            [k.enter] + BlockCode(k, words, base, body, a + 8) + Two(k.loop, a + 8)
  {
    hide Spelling, Toks, BlockCode, Spelled, Size, CellsOf;
    Regrouped([Spelling(Do)], Toks(body), [Spelling(Loop)], rest);
  }

  lemma WhileParts(k: Link, words: seq<Word>, base: nat, test: Block, body: Block, a: nat, rest: seq<Text>)
    requires Spelled(words, base, test) && Spelled(words, base, body)
    ensures StmtToks(BeginWhile(test, body)) + rest ==
            [Spelling(Begin)] + (Toks(test) + ([Spelling(While)] + (Toks(body) + ([Spelling(Repeat)] + rest))))
    ensures StmtSpelled(words, base, BeginWhile(test, body))
    ensures var inner := a + 16 + 8 * Size(test);
            StmtCode(k, words, base, BeginWhile(test, body), a) ==
            BlockCode(k, words, base, test, a) + Two(k.zeroBranch, inner + 16 + 8 * Size(body))
            + BlockCode(k, words, base, body, inner) + Two(k.branch, a)
  {
    hide Spelling, Toks, BlockCode, Spelled, Size, CellsOf;
    RegroupedAll([Spelling(Begin)], Toks(test), [Spelling(While)], Toks(body), [Spelling(Repeat)], rest);
  }

  lemma {:induction false} CompiledIf(k: Link, m: Machine, words: seq<Word>, w: Word, yes: Block,
                                      rest: seq<Text>, fuel: nat) returns (n: Machine)
    requires Ready(k, m, words, w, 2 + Size(yes), 1 + Room(yes)) && Spelled(words, m.base, yes)
    ensures Eval(k, m, StmtToks(IfThen(yes)) + rest, fuel) == Eval(k, n, rest, fuel)
    ensures Done(k, m, n, words, w, StmtCode(k, words, m.base, IfThen(yes), m.dict.here))
    decreases yes, 1
  {
    hide Step, Eval, Image, Compiling, CellsOf, AlignUp, OpenBranch, PatchHere, BranchBack, ElseStep, RepeatStep;
    hide Spelling, Toks, StmtToks, BlockCode, StmtCode, Spelled, StmtSpelled, Size, StmtSize, Room, StmtRoom;
    var a, j := m.dict.here, |w.cells| + 1;
    HereIs(m, words, w);
    IfParts(k, words, m.base, yes, a, rest);
    OpenMeets(m, words, w, k.zeroBranch);
    EvalControl(k, m, words, w, If, Toks(yes) + ([Spelling(Then)] + rest), fuel);
    var o, v := OpenBranch(m, k.zeroBranch).value, Longer(w, Two(k.zeroBranch, 0));
    var p := CompiledBlock(k, o, words, v, yes, [Spelling(Then)] + rest, fuel);
    var c := BlockCode(k, words, m.base, yes, a + 16);
    var u := Longer(v, c);
    assert CellAddr(u, j) == a + 8;
    PatchMeets(p, words, u, j, m.ds);
    EvalControl(k, p, words, u, Then, rest, fuel);
    n := PatchHere(p).value;
    PatchFirst(w, k.zeroBranch, p.dict.here, c, j);
    MovedTwice(m, o, p, a, o.dict.here);
    MovedTwice(m, p, n, a, a + 8);
  }

  /** BEGIN body UNTIL and BEGIN body AGAIN. */
  lemma {:induction false} CompiledLoop(k: Link, m: Machine, words: seq<Word>, w: Word, body: Block, c: Control,
                                        code: nat, rest: seq<Text>, fuel: nat) returns (n: Machine)
    requires Ready(k, m, words, w, Size(body) + 2, 1 + Room(body)) && Spelled(words, m.base, body)
    requires (c == Until && code == k.zeroBranch) || (c == Again && code == k.branch)
    ensures Eval(k, m, [Spelling(Begin)] + Toks(body) + [Spelling(c)] + rest, fuel) == Eval(k, n, rest, fuel)
    ensures Done(k, m, n, words, w, BlockCode(k, words, m.base, body, m.dict.here) + Two(code, m.dict.here))
    decreases body, 1
  {
    hide Step, Eval, Image, Compiling, CellsOf, AlignUp, OpenBranch, PatchHere, BranchBack, ElseStep, RepeatStep;
    hide Spelling, Toks, StmtToks, BlockCode, StmtCode, Spelled, StmtSpelled, Size, StmtSize, Room, StmtRoom;
    var a := m.dict.here;
    HereIs(m, words, w);
    Regrouped([Spelling(Begin)], Toks(body), [Spelling(c)], rest);
    EvalControl(k, m, words, w, Begin, Toks(body) + ([Spelling(c)] + rest), fuel);
    BeginMeets(m, words, w);
    var o := PushHere(m);
    var p := CompiledBlock(k, o, words, w, body, [Spelling(c)] + rest, fuel);
    var v := Longer(w, BlockCode(k, words, m.base, body, a));
    BackMeets(p, words, v, code, m.ds, a);
    EvalControl(k, p, words, v, c, rest, fuel);
    n := BranchBack(p, code).value;
    LongerTwice(w, BlockCode(k, words, m.base, body, a), Two(code, a));
    MovedTwice(m, o, p, a, a);
    MovedTwice(m, p, n, a, p.dict.here);
  }

  lemma {:induction false} CompiledDo(k: Link, m: Machine, words: seq<Word>, w: Word, body: Block,
                                      rest: seq<Text>, fuel: nat) returns (n: Machine)
    requires Ready(k, m, words, w, 3 + Size(body), 1 + Room(body)) && Spelled(words, m.base, body)
    ensures Eval(k, m, StmtToks(DoLoop(body)) + rest, fuel) == Eval(k, n, rest, fuel)
    ensures Done(k, m, n, words, w, StmtCode(k, words, m.base, DoLoop(body), m.dict.here))
    decreases body, 1
  {
    hide Step, Eval, Image, Compiling, CellsOf, AlignUp, OpenBranch, PatchHere, BranchBack, ElseStep, RepeatStep;
    hide Spelling, Toks, StmtToks, BlockCode, StmtCode, Spelled, StmtSpelled, Size, StmtSize, Room, StmtRoom;
    var a := m.dict.here;
    HereIs(m, words, w);
    DoParts(k, words, m.base, body, a, rest);
    DoMeets(k, m, words, w);
    EvalControl(k, m, words, w, Do, Toks(body) + ([Spelling(Loop)] + rest), fuel);
    var o := ControlStep(k, m, Do).value;
    var u := Longer(w, [k.enter]);
    var p := CompiledBlock(k, o, words, u, body, [Spelling(Loop)] + rest, fuel);
    var c := BlockCode(k, words, m.base, body, a + 8);
    var v := Longer(u, c);
    BackMeets(p, words, v, k.loop, m.ds, a + 8);
    EvalControl(k, p, words, v, Loop, rest, fuel);
    n := BranchBack(p, k.loop).value;
    LongerTwice(w, [k.enter], c);
    LongerTwice(w, [k.enter] + c, Two(k.loop, a + 8));
    MovedTwice(m, o, p, a, o.dict.here);
    MovedTwice(m, p, n, a, p.dict.here);
  }

  lemma {:induction false} CompiledIfElse(k: Link, m: Machine, words: seq<Word>, w: Word, yes: Block, no: Block,
                                          rest: seq<Text>, fuel: nat) returns (n: Machine)
    requires Ready(k, m, words, w, 4 + Size(yes) + Size(no), 1 + Max(Room(yes), Room(no)))
    requires Spelled(words, m.base, yes) && Spelled(words, m.base, no)
    ensures Eval(k, m, StmtToks(IfElse(yes, no)) + rest, fuel) == Eval(k, n, rest, fuel)
    ensures Done(k, m, n, words, w, StmtCode(k, words, m.base, IfElse(yes, no), m.dict.here))
    decreases IfElse(yes, no), 0
  {
    hide Step, Eval, Image, Compiling, CellsOf, AlignUp, OpenBranch, PatchHere, BranchBack, ElseStep, RepeatStep;
    hide Spelling, Toks, StmtToks, BlockCode, StmtCode, Spelled, StmtSpelled, Size, StmtSize, Room, StmtRoom;
    var a, j := m.dict.here, |w.cells| + 1;
    HereIs(m, words, w);
    var tail := [Spelling(Else)] + (Toks(no) + ([Spelling(Then)] + rest));
    IfElseParts(k, words, m.base, yes, no, a, rest);
    OpenMeets(m, words, w, k.zeroBranch);
    EvalControl(k, m, words, w, If, Toks(yes) + tail, fuel);
    var o, v := OpenBranch(m, k.zeroBranch).value, Longer(w, Two(k.zeroBranch, 0));
    var p := CompiledBlock(k, o, words, v, yes, tail, fuel);
    var c := BlockCode(k, words, m.base, yes, a + 16);
    assert CellAddr(Longer(v, c), j) == a + 8;
    MovedTwice(m, o, p, a, o.dict.here);
    n := CompiledElse(k, m, p, words, w, c, no, rest, fuel);
  }

  /** From ELSE on: the first branch leads to the second part, the new one past it. */
  lemma {:induction false} CompiledElse(k: Link, m: Machine, p: Machine, words: seq<Word>, w: Word, c: seq<nat>,
                                        no: Block, rest: seq<Text>, fuel: nat) returns (n: Machine)
    requires Ready(k, m, words, w, 4 + |c| + Size(no), 1 + Room(no)) && Spelled(words, m.base, no)
    requires Compiling(p, words, Longer(Longer(w, Two(k.zeroBranch, 0)), c)) && Moved(m, p, m.dict.here)
    requires p.ds == Push(m.ds, Wrap(m.dict.here + 8)) && p.dict.here == m.dict.here + 16 + 8 * |c|
    ensures Eval(k, p, [Spelling(Else)] + (Toks(no) + ([Spelling(Then)] + rest)), fuel) == Eval(k, n, rest, fuel)
    ensures Done(k, m, n, words, w, Two(k.zeroBranch, p.dict.here + 16) + c
                                    + Two(k.branch, p.dict.here + 16 + 8 * Size(no))
                                    + BlockCode(k, words, m.base, no, p.dict.here + 16))
    decreases no, 2
  {
    hide Step, Eval, Image, Compiling, CellsOf, AlignUp, OpenBranch, PatchHere, BranchBack, ElseStep, RepeatStep;
    hide Spelling, Toks, StmtToks, BlockCode, StmtCode, Spelled, StmtSpelled, Size, StmtSize, Room, StmtRoom;
    var a, j := m.dict.here, |w.cells| + 1;
    HereIs(m, words, w);
    var u := Longer(Longer(w, Two(k.zeroBranch, 0)), c);
    assert CellAddr(u, j) == a + 8;
    ElseMeets(k, p, words, u, j, m.ds);
    EvalControl(k, p, words, u, Else, Toks(no) + ([Spelling(Then)] + rest), fuel);
    var q := ElseStep(k, p).value;
    var head := Two(k.zeroBranch, p.dict.here + 16) + c;
    LongerTwice(Longer(w, Two(k.zeroBranch, 0)), c, Two(k.branch, 0));
    PatchFirst(w, k.zeroBranch, p.dict.here + 16, c + Two(k.branch, 0), j);
    assert Two(k.zeroBranch, p.dict.here + 16) + (c + Two(k.branch, 0)) == head + Two(k.branch, 0);
    MovedTwice(m, p, q, a, a + 8);
    n := CompiledRest(k, m, q, words, w, head, no, rest, fuel);
  }

  /** The part after ELSE, and THEN. */
  lemma {:induction false} CompiledRest(k: Link, m: Machine, q: Machine, words: seq<Word>, w: Word, head: seq<nat>,
                                        no: Block, rest: seq<Text>, fuel: nat) returns (n: Machine)
    requires Ready(k, m, words, w, |head| + 2 + Size(no), 1 + Room(no)) && Spelled(words, m.base, no)
    requires Compiling(q, words, Longer(w, head + Two(k.branch, 0))) && Moved(m, q, m.dict.here)
    requires q.dict.here == m.dict.here + 8 * |head| + 16 && q.ds == Push(m.ds, Wrap(q.dict.here - 8))
    ensures Eval(k, q, Toks(no) + ([Spelling(Then)] + rest), fuel) == Eval(k, n, rest, fuel)
    ensures Done(k, m, n, words, w, head + Two(k.branch, q.dict.here + 8 * Size(no))
                                    + BlockCode(k, words, m.base, no, q.dict.here))
    decreases no, 1
  {
    hide Step, Eval, Image, Compiling, CellsOf, AlignUp, OpenBranch, PatchHere, BranchBack, ElseStep, RepeatStep;
    hide Spelling, Toks, StmtToks, BlockCode, StmtCode, Spelled, StmtSpelled, Size, StmtSize, Room, StmtRoom;
    var j, v := |w.cells| + |head| + 1, Longer(w, head + Two(k.branch, 0));
    HereIs(m, words, w);
    var r := CompiledBlock(k, q, words, v, no, [Spelling(Then)] + rest, fuel);
    var d := BlockCode(k, words, m.base, no, q.dict.here);
    var u := Longer(v, d);
    assert CellAddr(u, j) == q.dict.here - 8;
    PatchMeets(r, words, u, j, m.ds);
    EvalControl(k, r, words, u, Then, rest, fuel);
    n := PatchHere(r).value;
    PatchInside(w, head, k.branch, r.dict.here, d, j);
    MovedTwice(m, q, r, m.dict.here, q.dict.here);
    MovedTwice(m, r, n, m.dict.here, q.dict.here - 8);
  }

  lemma {:induction false} CompiledWhile(k: Link, m: Machine, words: seq<Word>, w: Word, test: Block, body: Block,
                                         rest: seq<Text>, fuel: nat) returns (n: Machine)
    requires Ready(k, m, words, w, Size(test) + 4 + Size(body), Max(1 + Room(test), 2 + Room(body)))
    requires Spelled(words, m.base, test) && Spelled(words, m.base, body)
    ensures Eval(k, m, StmtToks(BeginWhile(test, body)) + rest, fuel) == Eval(k, n, rest, fuel)
    ensures Done(k, m, n, words, w, StmtCode(k, words, m.base, BeginWhile(test, body), m.dict.here))
    decreases BeginWhile(test, body), 0
  {
    hide Step, Eval, Image, Compiling, CellsOf, AlignUp, OpenBranch, PatchHere, BranchBack, ElseStep, RepeatStep;
    hide Spelling, Toks, StmtToks, BlockCode, StmtCode, Spelled, StmtSpelled, Size, StmtSize, Room, StmtRoom;
    var a := m.dict.here;
    HereIs(m, words, w);
    var tail := [Spelling(While)] + (Toks(body) + ([Spelling(Repeat)] + rest));
    WhileParts(k, words, m.base, test, body, a, rest);
    EvalControl(k, m, words, w, Begin, Toks(test) + tail, fuel);
    BeginMeets(m, words, w);
    var o := PushHere(m);
    var p := CompiledBlock(k, o, words, w, test, tail, fuel);
    MovedTwice(m, o, p, a, a);
    n := CompiledRepeat(k, m, p, words, w, BlockCode(k, words, m.base, test, a), body, rest, fuel);
  }

  /** From WHILE on: the way out leads past REPEAT, REPEAT back to BEGIN. */
  lemma {:induction false} CompiledRepeat(k: Link, m: Machine, p: Machine, words: seq<Word>, w: Word, c: seq<nat>,
                                          body: Block, rest: seq<Text>, fuel: nat) returns (n: Machine)
    requires Ready(k, m, words, w, |c| + 4 + Size(body), 2 + Room(body)) && Spelled(words, m.base, body)
    requires Compiling(p, words, Longer(w, c)) && Moved(m, p, m.dict.here)
    requires p.dict.here == m.dict.here + 8 * |c| && p.ds == Push(m.ds, Wrap(m.dict.here))
    ensures Eval(k, p, [Spelling(While)] + (Toks(body) + ([Spelling(Repeat)] + rest)), fuel) == Eval(k, n, rest, fuel)
    ensures Done(k, m, n, words, w, c + Two(k.zeroBranch, p.dict.here + 32 + 8 * Size(body))
                                    + BlockCode(k, words, m.base, body, p.dict.here + 16) + Two(k.branch, m.dict.here))
    decreases body, 1
  {
    hide Step, Eval, Image, Compiling, CellsOf, AlignUp, OpenBranch, PatchHere, BranchBack, ElseStep, RepeatStep;
    hide Spelling, Toks, StmtToks, BlockCode, StmtCode, Spelled, StmtSpelled, Size, StmtSize, Room, StmtRoom;
    var a, j, u := m.dict.here, |w.cells| + |c| + 1, Longer(w, c);
    HereIs(m, words, w);
    OpenMeets(p, words, u, k.zeroBranch);
    EvalControl(k, p, words, u, While, Toks(body) + ([Spelling(Repeat)] + rest), fuel);
    var q, v := OpenBranch(p, k.zeroBranch).value, Longer(u, Two(k.zeroBranch, 0));
    var r := CompiledBlock(k, q, words, v, body, [Spelling(Repeat)] + rest, fuel);
    var d := BlockCode(k, words, m.base, body, p.dict.here + 16);
    var x := Longer(v, d);
    assert CellAddr(x, j) == p.dict.here + 8;
    RepeatMeets(k, r, words, x, j, m.ds, a);
    EvalControl(k, r, words, x, Repeat, rest, fuel);
    n := RepeatStep(k, r).value;
    LongerTwice(w, c, Two(k.zeroBranch, 0));
    LongerTwice(v, d, Two(k.branch, a));
    PatchInside(w, c, k.zeroBranch, r.dict.here + 16, d + Two(k.branch, a), j);
    assert c + Two(k.zeroBranch, r.dict.here + 16) + (d + Two(k.branch, a))
        == c + Two(k.zeroBranch, r.dict.here + 16) + d + Two(k.branch, a);
    MovedTwice(m, p, q, a, p.dict.here);
    MovedTwice(m, q, r, a, q.dict.here);
    MovedTwice(m, r, n, a, p.dict.here + 8);
  }

  /** `: name block ;` defines a word with the block's code, leaving the data stack and all older memory alone. */
  lemma ControlDefines(k: Link, m: Machine, words: seq<Word>, name: Text, b: Block, rest: seq<Text>, fuel: nat)
    returns (n: Machine)
    requires Image(m.dict, words) && m.mode == Interpret
    requires HasWord(k, words, Colons(), ColonWord) && HasImmediate(k, words, Semicolons(), SemicolonWord)
    requires HasControls(k, words) && Spelled(words, m.base, b)
    requires HasSpace(m.dict, name, Size(b) + 1) && |m.ds| + Room(b) <= STACK_SIZE
    ensures Eval(k, m, [Colons(), name] + Toks(b) + [Semicolons()] + rest, fuel) == Eval(k, n, rest, fuel)
    ensures var f := Fresh(m.dict.here, name, 0, k.doColon);
            Image(n.dict, words + [f.(cells := BlockCode(k, words, m.base, b, CellAddr(f, 0)) + [SENTINEL])])
    ensures n.(dict := m.dict) == m && Same(m.dict.mem, n.dict.mem, BASE, m.dict.here)
  {
    hide Step, Image, CellsOf, AlignUp, Toks, BlockCode, Spelled, HasControls;
    var all := [Colons(), name] + Toks(b) + [Semicolons()] + rest;
    var w := Fresh(m.dict.here, name, F_HIDDEN, k.doColon);
    var o := Started(k, m, words, name, all, fuel);
    assert all[2..] == Toks(b) + ([Semicolons()] + rest);
    StartedHere(o, words, w);
    var p := CompiledBlock(k, o, words, w, b, [Semicolons()] + rest, fuel);
    var u := Longer(w, BlockCode(k, words, m.base, b, o.dict.here));
    n := Finished(k, p, words, u, [Semicolons()] + rest, fuel);
    assert ([Semicolons()] + rest)[1..] == rest;
    var f := Fresh(m.dict.here, name, 0, k.doColon);
    assert u.cells == [] + BlockCode(k, words, m.base, b, o.dict.here);
    assert u.cells == BlockCode(k, words, m.base, b, CellAddr(f, 0));
    assert Longer(u, [SENTINEL]).(flags := Unhidden(u.flags))
        == f.(cells := BlockCode(k, words, m.base, b, CellAddr(f, 0)) + [SENTINEL]);
    SamePart(o.dict.mem, p.dict.mem, BASE, o.dict.here, BASE, m.dict.here);
    SameTwice(m.dict.mem, o.dict.mem, p.dict.mem, BASE, m.dict.here);
    SameTwice(m.dict.mem, p.dict.mem, n.dict.mem, BASE, m.dict.here);
  }

  function Colons(): Text { ":" }
  function Semicolons(): Text { ";" }

  lemma StartedHere(m: Machine, words: seq<Word>, w: Word)
    requires Image(m.dict, words + [w]) && w.cells == [] && w.room == 0
    ensures m.dict.here == CellAddr(w, 0)
  {
  }

  // ----- where the branches lead -----

  /** A branch operand: the index of its cell in the code, and the address it holds. */
  datatype Branch = Branch(i: nat, to: nat, forward: bool)

  function Shift(brs: seq<Branch>, d: nat): (r: seq<Branch>)
    ensures |r| == |brs| && forall x :: 0 <= x < |r| ==> r[x] == brs[x].(i := brs[x].i + d)
  {
    if brs == [] then [] else [brs[0].(i := brs[0].i + d)] + Shift(brs[1..], d)
  }

  /** The branches of a block at address a: forward for IF, ELSE and WHILE, backward for UNTIL, AGAIN, REPEAT
      and LOOP. */
  function Branches(b: Block, a: nat): seq<Branch> {
    match b
    case Nil => []
    case Cons(s, rest) => StmtBranches(s, a) + Shift(Branches(rest, a + 8 * StmtSize(s)), StmtSize(s))
  }

  function StmtBranches(s: Stmt, a: nat): seq<Branch> {
    match s
    case Plain(_, _) => []
    case IfThen(yes) => [Branch(1, a + 16 + 8 * Size(yes), true)] + Shift(Branches(yes, a + 16), 2)
    case IfElse(yes, no) =>
      var other := a + 32 + 8 * Size(yes);
      [Branch(1, other, true)] + Shift(Branches(yes, a + 16), 2)
      + [Branch(Size(yes) + 3, other + 8 * Size(no), true)] + Shift(Branches(no, other), Size(yes) + 4)
    case BeginUntil(body) => Branches(body, a) + [Branch(Size(body) + 1, a, false)]
    case BeginAgain(body) => Branches(body, a) + [Branch(Size(body) + 1, a, false)]
    case BeginWhile(test, body) =>
      var inner := a + 16 + 8 * Size(test);
      Branches(test, a) + [Branch(Size(test) + 1, inner + 16 + 8 * Size(body), true)]
      + Shift(Branches(body, inner), Size(test) + 2) + [Branch(Size(test) + Size(body) + 3, a, false)]
    case DoLoop(body) => Shift(Branches(body, a + 8), 1) + [Branch(Size(body) + 2, a + 8, false)]
  }

  /** The operand is in the code, leads to a cell of the code or just past it, and in the right direction. */
  ghost predicate Resolved(c: seq<nat>, a: nat, br: Branch) {
    && br.i < |c| && c[br.i] == br.to && a <= br.to <= a + 8 * |c| && (br.to - a) % 8 == 0
    && (br.forward <==> br.to > a + 8 * br.i)
  }

  ghost predicate AllResolved(c: seq<nat>, a: nat, brs: seq<Branch>) {
    forall x :: 0 <= x < |brs| ==> Resolved(c, a, brs[x])
  }

  /** Branches stay resolved when code is put before and after. */
  lemma Nested(pre: seq<nat>, c: seq<nat>, post: seq<nat>, a: nat, brs: seq<Branch>)
    requires AllResolved(c, a + 8 * |pre|, brs)
    ensures AllResolved(pre + c + post, a, Shift(brs, |pre|))
  {
    var all, shifted := pre + c + post, Shift(brs, |pre|);
    forall x | 0 <= x < |brs| ensures Resolved(all, a, shifted[x]) {
      assert Resolved(c, a + 8 * |pre|, brs[x]);
      assert all[|pre| + brs[x].i] == c[brs[x].i];
    }
  }

  lemma NoBranches(a: nat)
    ensures AllResolved([], a, [])
  {
  }

  lemma Unshifted(brs: seq<Branch>)
    ensures Shift(brs, 0) == brs
  {
    assert forall x :: 0 <= x < |brs| ==> Shift(brs, 0)[x] == brs[x];
  }

  lemma Joined(c: seq<nat>, a: nat, p: seq<Branch>, q: seq<Branch>)
    requires AllResolved(c, a, p) && AllResolved(c, a, q)
    ensures AllResolved(c, a, p + q)
  {
    forall x | 0 <= x < |p + q| ensures Resolved(c, a, (p + q)[x]) {
      if x < |p| { assert Resolved(c, a, p[x]); } else { assert Resolved(c, a, q[x - |p|]); }
    }
  }

  /** Every branch operand of a compiled block holds the structurally right address inside the block:
      past it for the way out of IF, ELSE and WHILE, back to its beginning for UNTIL, AGAIN, REPEAT and LOOP. */
  lemma {:induction false} BranchesResolved(k: Link, words: seq<Word>, base: nat, b: Block, a: nat)
    requires Spelled(words, base, b)
    ensures AllResolved(BlockCode(k, words, base, b, a), a, Branches(b, a))
    decreases b, 0
  {
    hide Resolved, AllResolved, StmtCode, StmtBranches, StmtSize, Size, StmtSpelled;
    match b
    case Nil => NoBranches(a);
    case Cons(s, rest) =>
      StmtResolved(k, words, base, s, a);
      BranchesResolved(k, words, base, rest, a + 8 * StmtSize(s));
      ResolvedTwice(StmtCode(k, words, base, s, a), BlockCode(k, words, base, rest, a + 8 * StmtSize(s)), a,
                    StmtBranches(s, a), Branches(rest, a + 8 * StmtSize(s)));
  }

  lemma ResolvedTwice(c: seq<nat>, d: seq<nat>, a: nat, p: seq<Branch>, q: seq<Branch>)
    requires AllResolved(c, a, p) && AllResolved(d, a + 8 * |c|, q)
    ensures AllResolved(c + d, a, p + Shift(q, |c|))
  {
    hide Resolved, AllResolved;
    Nested([], c, d, a, p);
    Unshifted(p);
    Nested(c, d, [], a, q);
    assert [] + c + d == c + d == c + d + [];
    Joined(c + d, a, p, Shift(q, |c|));
  }

  lemma {:induction false} StmtResolved(k: Link, words: seq<Word>, base: nat, s: Stmt, a: nat)
    requires StmtSpelled(words, base, s)
    ensures AllResolved(StmtCode(k, words, base, s, a), a, StmtBranches(s, a))
    decreases s, 1
  {
    hide Resolved, BlockCode, Branches, Size, Spelled;
    match s
    case Plain(_, _) =>
    case IfThen(yes) => ThenResolved(k, words, base, yes, a);
    case IfElse(yes, no) => ElseResolved(k, words, base, yes, no, a);
    case BeginUntil(body) => LoopResolved(k, words, base, body, k.zeroBranch, a);
    case BeginAgain(body) => LoopResolved(k, words, base, body, k.branch, a);
    case BeginWhile(test, body) => WhileResolved(k, words, base, test, body, a);
    case DoLoop(body) => DoResolved(k, words, base, body, a);
  }

  lemma {:induction false} ThenResolved(k: Link, words: seq<Word>, base: nat, yes: Block, a: nat)
    requires Spelled(words, base, yes)
    ensures AllResolved(StmtCode(k, words, base, IfThen(yes), a), a, StmtBranches(IfThen(yes), a))
    decreases yes, 1
  {
    hide Resolved, AllResolved, BlockCode, Branches, Size, Spelled;
    var all, c := StmtCode(k, words, base, IfThen(yes), a), BlockCode(k, words, base, yes, a + 16);
    var x := Two(k.zeroBranch, a + 16 + 8 * Size(yes));
    BranchesResolved(k, words, base, yes, a + 16);
    assert all == x + c + [] && all == [] + x + c;
    Inside(x, c, [], a, Branches(yes, a + 16), all);
    One([], x, c, all, a, true);
    Joined(all, a, [Branch(1, x[1], true)], Shift(Branches(yes, a + 16), 2));
  }

  lemma {:induction false} DoResolved(k: Link, words: seq<Word>, base: nat, body: Block, a: nat)
    requires Spelled(words, base, body)
    ensures AllResolved(StmtCode(k, words, base, DoLoop(body), a), a, StmtBranches(DoLoop(body), a))
    decreases body, 1
  {
    hide Resolved, AllResolved, BlockCode, Branches, Size, Spelled;
    var all, c := StmtCode(k, words, base, DoLoop(body), a), BlockCode(k, words, base, body, a + 8);
    var e: seq<nat>, x := [k.enter], Two(k.loop, a + 8);
    BranchesResolved(k, words, base, body, a + 8);
    assert all == e + c + x && all == (e + c) + x + [];
    Inside(e, c, x, a, Branches(body, a + 8), all);
    One(e + c, x, [], all, a, false);
    Joined(all, a, Shift(Branches(body, a + 8), 1), [Branch(Size(body) + 2, a + 8, false)]);
  }

  lemma Inside(pre: seq<nat>, c: seq<nat>, post: seq<nat>, a: nat, brs: seq<Branch>, all: seq<nat>)
    requires AllResolved(c, a + 8 * |pre|, brs) && all == pre + c + post
    ensures AllResolved(all, a, Shift(brs, |pre|))
  {
    Nested(pre, c, post, a, brs);
  }

  /** A single branch at its place in the code. */
  lemma One(pre: seq<nat>, two: seq<nat>, post: seq<nat>, all: seq<nat>, a: nat, forward: bool)
    requires all == pre + two + post && |two| == 2
    requires a <= two[1] <= a + 8 * |all| && (two[1] - a) % 8 == 0
    requires forward <==> two[1] > a + 8 * (|pre| + 1)
    ensures AllResolved(all, a, [Branch(|pre| + 1, two[1], forward)])
  {
    assert all[|pre| + 1] == two[1];
  }

  lemma {:induction false} ElseResolved(k: Link, words: seq<Word>, base: nat, yes: Block, no: Block, a: nat)
    requires Spelled(words, base, yes) && Spelled(words, base, no)
    ensures AllResolved(StmtCode(k, words, base, IfElse(yes, no), a), a, StmtBranches(IfElse(yes, no), a))
    decreases IfElse(yes, no), 0
  {
    hide Resolved, AllResolved, BlockCode, Branches, Size, Spelled;
    var other := a + 32 + 8 * Size(yes);
    var all := StmtCode(k, words, base, IfElse(yes, no), a);
    var c, d := BlockCode(k, words, base, yes, a + 16), BlockCode(k, words, base, no, other);
    var x, y := Two(k.zeroBranch, other), Two(k.branch, other + 8 * Size(no));
    BranchesResolved(k, words, base, yes, a + 16);
    BranchesResolved(k, words, base, no, other);
    assert all == x + c + (y + d) && all == (x + c + y) + d + [];
    Inside(x, c, y + d, a, Branches(yes, a + 16), all);
    Inside(x + c + y, d, [], a, Branches(no, other), all);
    var p := [Branch(1, other, true)];
    var q := [Branch(Size(yes) + 3, other + 8 * Size(no), true)];
    One([], x, c + y + d, all, a, true);
    One(x + c, y, d, all, a, true);
    Joined(all, a, p, Shift(Branches(yes, a + 16), 2));
    Joined(all, a, p + Shift(Branches(yes, a + 16), 2), q);
    Joined(all, a, p + Shift(Branches(yes, a + 16), 2) + q, Shift(Branches(no, other), Size(yes) + 4));
  }

  lemma {:induction false} LoopResolved(k: Link, words: seq<Word>, base: nat, body: Block, code: nat, a: nat)
    requires Spelled(words, base, body)
    ensures AllResolved(BlockCode(k, words, base, body, a) + Two(code, a), a,
                        Branches(body, a) + [Branch(Size(body) + 1, a, false)])
    decreases body, 1
  {
    hide Resolved, AllResolved, BlockCode, Branches, Size, Spelled;
    var c, x := BlockCode(k, words, base, body, a), Two(code, a);
    var all := c + x;
    BranchesResolved(k, words, base, body, a);
    assert all == [] + c + x && all == c + x + [];
    Inside([], c, x, a, Branches(body, a), all);
    Unshifted(Branches(body, a));
    One(c, x, [], all, a, false);
    Joined(all, a, Branches(body, a), [Branch(Size(body) + 1, a, false)]);
  }

  lemma {:induction false} WhileResolved(k: Link, words: seq<Word>, base: nat, test: Block, body: Block, a: nat)
    requires Spelled(words, base, test) && Spelled(words, base, body)
    ensures AllResolved(StmtCode(k, words, base, BeginWhile(test, body), a), a, StmtBranches(BeginWhile(test, body), a))
    decreases BeginWhile(test, body), 0
  {
    hide Resolved, AllResolved, BlockCode, Branches, Size, Spelled, Shift;
    var inner := a + 16 + 8 * Size(test);
    var all := StmtCode(k, words, base, BeginWhile(test, body), a);
    var c, d := BlockCode(k, words, base, test, a), BlockCode(k, words, base, body, inner);
    var x, y := Two(k.zeroBranch, inner + 16 + 8 * Size(body)), Two(k.branch, a);
    BranchesResolved(k, words, base, test, a);
    BranchesResolved(k, words, base, body, inner);
    assert all == [] + c + (x + d + y) && all == (c + x) + d + y;
    Inside([], c, x + d + y, a, Branches(test, a), all);
    Unshifted(Branches(test, a));
    Inside(c + x, d, y, a, Branches(body, inner), all);
    var p := [Branch(Size(test) + 1, inner + 16 + 8 * Size(body), true)];
    var q := [Branch(Size(test) + Size(body) + 3, a, false)];
    One(c, x, d + y, all, a, true);
    One(c + x + d, y, [], all, a, false);
    Joined(all, a, Branches(test, a), p);
    Joined(all, a, Branches(test, a) + p, Shift(Branches(body, inner), Size(test) + 2));
    Joined(all, a, Branches(test, a) + p + Shift(Branches(body, inner), Size(test) + 2), q);
  }

  // ----- no branch is missing from the list -----

  /** The address of a routine that takes a branch operand. */
  predicate Marker(k: Link, v: nat) { v == k.zeroBranch || v == k.branch || v == k.loop }

  ghost predicate Listed(brs: seq<Branch>, i: nat) { exists x :: 0 <= x < |brs| && brs[x].i == i }

  /** Every branch routine in the code is followed by a listed operand. */
  ghost predicate Complete(k: Link, c: seq<nat>, brs: seq<Branch>) {
    forall j :: 0 <= j < |c| && Marker(k, c[j]) ==> Listed(brs, j + 1)
  }

  /** No address from a to the end of the dictionary, and no other routine of the compiler, is a marker. */
  ghost predicate Distinct(k: Link) {
    && (forall v :: BASE <= v <= LIMIT ==> !Marker(k, v))
    && !Marker(k, k.doLiteral) && !Marker(k, k.enter)
  }

  /** None of the block's plain cells happens to be a marker. */
  predicate Unmarked(k: Link, words: seq<Word>, base: nat, b: Block)
    requires Spelled(words, base, b)
  {
    match b
    case Nil => true
    case Cons(s, rest) => StmtUnmarked(k, words, base, s) && Unmarked(k, words, base, rest)
  }

  predicate StmtUnmarked(k: Link, words: seq<Word>, base: nat, s: Stmt)
    requires StmtSpelled(words, base, s)
  {
    match s
    case Plain(_, it) => forall v :: v in CellsOf(k, words, it) ==> !Marker(k, v)
    case IfThen(yes) => Unmarked(k, words, base, yes)
    case IfElse(yes, no) => Unmarked(k, words, base, yes) && Unmarked(k, words, base, no)
    case BeginUntil(body) => Unmarked(k, words, base, body)
    case BeginAgain(body) => Unmarked(k, words, base, body)
    case BeginWhile(test, body) => Unmarked(k, words, base, test) && Unmarked(k, words, base, body)
    case DoLoop(body) => Unmarked(k, words, base, body)
  }

  /** Code after code, list after list. */
  lemma CompleteTwice(k: Link, c: seq<nat>, p: seq<Branch>, d: seq<nat>, q: seq<Branch>)
    requires Complete(k, c, p) && Complete(k, d, q)
    ensures Complete(k, c + d, p + Shift(q, |c|))
  {
    var all, r := c + d, p + Shift(q, |c|);
    forall j | 0 <= j < |all| && Marker(k, all[j]) ensures Listed(r, j + 1) {
      if j < |c| {
        assert Listed(p, j + 1);
        var x :| 0 <= x < |p| && p[x].i == j + 1;
        assert r[x].i == j + 1;
      } else {
        assert Listed(q, j - |c| + 1);
        var x :| 0 <= x < |q| && q[x].i == j - |c| + 1;
        assert r[|p| + x].i == j + 1;
      }
    }
  }

  lemma CompleteBranch(k: Link, code: nat, target: nat, forward: bool)
    requires !Marker(k, target)
    ensures Complete(k, Two(code, target), [Branch(1, target, forward)])
  {
    assert [Branch(1, target, forward)][0].i == 1;
  }

  lemma CompletePlain(k: Link, c: seq<nat>)
    requires forall v :: v in c ==> !Marker(k, v)
    ensures Complete(k, c, [])
  {
  }

  lemma ShiftOne(br: Branch, d: nat)
    ensures Shift([br], d) == [br.(i := br.i + d)] && Shift([], d) == []
  {
  }

  /** The list of branches misses none: wherever the code holds the address of a branch routine, the operand after it
      is on the list.  The plain cells must not look like such addresses, and the code must lie in the dictionary. */
  lemma {:induction false} BranchesComplete(k: Link, words: seq<Word>, base: nat, b: Block, a: nat)
    requires Spelled(words, base, b) && Unmarked(k, words, base, b) && Distinct(k)
    requires BASE <= a && a + 8 * Size(b) <= LIMIT
    ensures Complete(k, BlockCode(k, words, base, b, a), Branches(b, a))
    decreases b, 0
  {
    hide Complete, StmtCode, StmtBranches, StmtSize, StmtSpelled, StmtUnmarked, Distinct;
    match b
    case Nil => CompletePlain(k, []);
    case Cons(s, rest) =>
      StmtComplete(k, words, base, s, a);
      BranchesComplete(k, words, base, rest, a + 8 * StmtSize(s));
      CompleteTwice(k, StmtCode(k, words, base, s, a), StmtBranches(s, a),
                    BlockCode(k, words, base, rest, a + 8 * StmtSize(s)), Branches(rest, a + 8 * StmtSize(s)));
  }

  lemma {:induction false} StmtComplete(k: Link, words: seq<Word>, base: nat, s: Stmt, a: nat)
    requires StmtSpelled(words, base, s) && StmtUnmarked(k, words, base, s) && Distinct(k)
    requires BASE <= a && a + 8 * StmtSize(s) <= LIMIT
    ensures Complete(k, StmtCode(k, words, base, s, a), StmtBranches(s, a))
    decreases s, 1
  {
    hide Complete, BlockCode, Branches, Size, Spelled, Unmarked;
    match s
    case Plain(_, it) => CompletePlain(k, CellsOf(k, words, it));
    case IfThen(yes) => ThenComplete(k, words, base, yes, a);
    case IfElse(yes, no) => ElseComplete(k, words, base, yes, no, a);
    case BeginUntil(body) => LoopComplete(k, words, base, body, k.zeroBranch, a);
    case BeginAgain(body) => LoopComplete(k, words, base, body, k.branch, a);
    case BeginWhile(test, body) => WhileComplete(k, words, base, test, body, a);
    case DoLoop(body) => DoComplete(k, words, base, body, a);
  }

  lemma {:induction false} ThenComplete(k: Link, words: seq<Word>, base: nat, yes: Block, a: nat)
    requires Spelled(words, base, yes) && Unmarked(k, words, base, yes) && Distinct(k)
    requires BASE <= a && a + 16 + 8 * Size(yes) <= LIMIT
    ensures Complete(k, StmtCode(k, words, base, IfThen(yes), a), StmtBranches(IfThen(yes), a))
    decreases yes, 1
  {
    hide Complete, BlockCode, Branches, Size, Spelled, Unmarked;
    var t := a + 16 + 8 * Size(yes);
    BranchesComplete(k, words, base, yes, a + 16);
    CompleteBranch(k, k.zeroBranch, t, true);
    CompleteTwice(k, Two(k.zeroBranch, t), [Branch(1, t, true)],
                  BlockCode(k, words, base, yes, a + 16), Branches(yes, a + 16));
  }

  lemma {:induction false} ElseComplete(k: Link, words: seq<Word>, base: nat, yes: Block, no: Block, a: nat)
    requires Spelled(words, base, yes) && Spelled(words, base, no) && Distinct(k)
    requires Unmarked(k, words, base, yes) && Unmarked(k, words, base, no)
    requires BASE <= a && a + 32 + 8 * Size(yes) + 8 * Size(no) <= LIMIT
    ensures Complete(k, StmtCode(k, words, base, IfElse(yes, no), a), StmtBranches(IfElse(yes, no), a))
    decreases IfElse(yes, no), 0
  {
    hide Complete, BlockCode, Branches, Size, Spelled, Unmarked;
    var other := a + 32 + 8 * Size(yes);
    var end := other + 8 * Size(no);
    var x, y := Two(k.zeroBranch, other), Two(k.branch, end);
    var c, d := BlockCode(k, words, base, yes, a + 16), BlockCode(k, words, base, no, other);
    var p, q := [Branch(1, other, true)], [Branch(1, end, true)];
    var r, s := Branches(yes, a + 16), Branches(no, other);
    BranchesComplete(k, words, base, yes, a + 16);
    BranchesComplete(k, words, base, no, other);
    CompleteBranch(k, k.zeroBranch, other, true);
    CompleteBranch(k, k.branch, end, true);
    CompleteTwice(k, x, p, c, r);
    CompleteTwice(k, x + c, p + Shift(r, 2), y, q);
    CompleteTwice(k, x + c + y, p + Shift(r, 2) + Shift(q, |x + c|), d, s);
    ShiftOne(q[0], |x + c|);
  }

  lemma {:induction false} LoopComplete(k: Link, words: seq<Word>, base: nat, body: Block, code: nat, a: nat)
    requires Spelled(words, base, body) && Unmarked(k, words, base, body) && Distinct(k)
    requires BASE <= a && a + 16 + 8 * Size(body) <= LIMIT
    ensures Complete(k, BlockCode(k, words, base, body, a) + Two(code, a),
                     Branches(body, a) + [Branch(Size(body) + 1, a, false)])
    decreases body, 1
  {
    hide Complete, BlockCode, Branches, Size, Spelled, Unmarked;
    BranchesComplete(k, words, base, body, a);
    CompleteBranch(k, code, a, false);
    CompleteTwice(k, BlockCode(k, words, base, body, a), Branches(body, a), Two(code, a), [Branch(1, a, false)]);
    ShiftOne(Branch(1, a, false), Size(body));
  }

  lemma {:induction false} WhileComplete(k: Link, words: seq<Word>, base: nat, test: Block, body: Block, a: nat)
    requires Spelled(words, base, test) && Spelled(words, base, body) && Distinct(k)
    requires Unmarked(k, words, base, test) && Unmarked(k, words, base, body)
    requires BASE <= a && a + 32 + 8 * Size(test) + 8 * Size(body) <= LIMIT
    ensures Complete(k, StmtCode(k, words, base, BeginWhile(test, body), a), StmtBranches(BeginWhile(test, body), a))
    decreases BeginWhile(test, body), 0
  {
    hide Complete, BlockCode, Branches, Size, Spelled, Unmarked;
    var inner := a + 16 + 8 * Size(test);
    var end := inner + 16 + 8 * Size(body);
    var x, y := Two(k.zeroBranch, end), Two(k.branch, a);
    var c, d := BlockCode(k, words, base, test, a), BlockCode(k, words, base, body, inner);
    var p, q := [Branch(1, end, true)], [Branch(1, a, false)];
    var r, s := Branches(test, a), Branches(body, inner);
    BranchesComplete(k, words, base, test, a);
    BranchesComplete(k, words, base, body, inner);
    CompleteBranch(k, k.zeroBranch, end, true);
    CompleteBranch(k, k.branch, a, false);
    CompleteTwice(k, c, r, x, p);
    ShiftOne(p[0], |c|);
    CompleteTwice(k, c + x, r + Shift(p, |c|), d, s);
    CompleteTwice(k, c + x + d, r + Shift(p, |c|) + Shift(s, |c + x|), y, q);
    ShiftOne(q[0], |c + x + d|);
  }

  lemma {:induction false} DoComplete(k: Link, words: seq<Word>, base: nat, body: Block, a: nat)
    requires Spelled(words, base, body) && Unmarked(k, words, base, body) && Distinct(k)
    requires BASE <= a && a + 24 + 8 * Size(body) <= LIMIT
    ensures Complete(k, StmtCode(k, words, base, DoLoop(body), a), StmtBranches(DoLoop(body), a))
    decreases body, 1
  {
    hide Complete, BlockCode, Branches, Size, Spelled, Unmarked;
    var e: seq<nat>, x, q := [k.enter], Two(k.loop, a + 8), [Branch(1, a + 8, false)];
    var c, s := BlockCode(k, words, base, body, a + 8), Branches(body, a + 8);
    BranchesComplete(k, words, base, body, a + 8);
    CompletePlain(k, e);
    CompleteBranch(k, k.loop, a + 8, false);
    CompleteTwice(k, e, [], c, s);
    assert [] + Shift(s, 1) == Shift(s, 1);
    CompleteTwice(k, e + c, Shift(s, 1), x, q);
    ShiftOne(q[0], |e + c|);
  }

  // ----- what the inner interpreter makes of it -----

  predicate Unbranched(b: Block) {
    match b
    case Nil => true
    case Cons(s, rest) => s.Plain? && Unbranched(rest)
  }

  /** The items whose cells come before the first routine of control flow. */
  function Lead(b: Block): seq<Item> {
    match b
    case Nil => []
    case Cons(s, rest) =>
      match s
      case Plain(_, it) => [it] + Lead(rest)
      case IfThen(_) => []
      case IfElse(_, _) => []
      case BeginUntil(body) => Lead(body)
      case BeginAgain(body) => Lead(body)
      case BeginWhile(test, _) => Lead(test)
      case DoLoop(_) => []
  }

  /** The routines that can come first. */
  predicate FirstRoutine(k: Link, v: nat) { v == k.zeroBranch || v == k.branch || v == k.enter }

  /** The code starts with the leading items; behind them there is nothing, or the first routine of control flow. */
  ghost predicate Leads(k: Link, words: seq<Word>, code: seq<nat>, b: Block, rest: seq<nat>) {
    && CallsBelow(Lead(b), |words|) && code == Code(k, words, Lead(b)) + rest
    && if Unbranched(b) then rest == [] else rest != [] && FirstRoutine(k, rest[0])
  }

  lemma {:induction false} LeadCode(k: Link, words: seq<Word>, base: nat, b: Block, a: nat) returns (rest: seq<nat>)
    requires Spelled(words, base, b)
    ensures Leads(k, words, BlockCode(k, words, base, b, a), b, rest)
    decreases b
  {
    hide StmtSize, CellsOf, Leads, StmtCode;
    match b
    case Nil => rest := NoCode(k, words);
    case Cons(s, more) =>
      var next := a + 8 * StmtSize(s);
      var tail := BlockCode(k, words, base, more, next);
      match s
      case Plain(tok, it) =>
        rest := LeadCode(k, words, base, more, next);
        LeadingItem(k, words, base, s, a, tail, more, rest);
      case IfThen(_) => rest := LeadingRoutine(k, words, base, s, more, a, tail);
      case IfElse(_, _) => rest := LeadingRoutine(k, words, base, s, more, a, tail);
      case BeginUntil(body) =>
        var r := LeadCode(k, words, base, body, a);
        rest := LeadingLoop(k, words, base, s, body, more, a, r, tail);
      case BeginAgain(body) =>
        var r := LeadCode(k, words, base, body, a);
        rest := LeadingLoop(k, words, base, s, body, more, a, r, tail);
      case BeginWhile(test, _) =>
        var r := LeadCode(k, words, base, test, a);
        rest := LeadingLoop(k, words, base, s, test, more, a, r, tail);
      case DoLoop(_) => rest := LeadingRoutine(k, words, base, s, more, a, tail);
  }

  lemma NoCode(k: Link, words: seq<Word>) returns (rest: seq<nat>)
    ensures Leads(k, words, [], Nil, rest)
  {
    rest := [];
  }

  lemma LeadingRoutine(k: Link, words: seq<Word>, base: nat, s: Stmt, more: Block, a: nat, tail: seq<nat>)
    returns (rest: seq<nat>)
    requires StmtSpelled(words, base, s) && (s.IfThen? || s.IfElse? || s.DoLoop?)
    ensures Leads(k, words, StmtCode(k, words, base, s, a) + tail, Cons(s, more), rest)
  {
    hide BlockCode;
    rest := StmtCode(k, words, base, s, a) + tail;
  }

  lemma LeadingItem(k: Link, words: seq<Word>, base: nat, s: Stmt, a: nat, tail: seq<nat>, more: Block, rest: seq<nat>)
    requires s.Plain? && StmtSpelled(words, base, s) && Leads(k, words, tail, more, rest)
    ensures Leads(k, words, StmtCode(k, words, base, s, a) + tail, Cons(s, more), rest)
  {
    hide CellsOf, Resolve;
    var items, all := Lead(more), [s.it] + Lead(more);
    assert all[0] == s.it && all[1..] == items;
    forall x | 0 <= x < |all| ensures CallBelow(all[x], |words|) {
      if x > 0 { assert CallBelow(items[x - 1], |words|); }
    }
  }

  /** A loop starts with the items of its body, or of its test. */
  lemma LeadingLoop(k: Link, words: seq<Word>, base: nat, s: Stmt, b: Block, more: Block, a: nat,
                    r: seq<nat>, tail: seq<nat>) returns (rest: seq<nat>)
    requires StmtSpelled(words, base, s) && (s.BeginUntil? || s.BeginAgain? || s.BeginWhile?)
    requires b == (if s.BeginWhile? then s.test else s.body) && Leads(k, words, BlockCode(k, words, base, b, a), b, r)
    ensures Leads(k, words, StmtCode(k, words, base, s, a) + tail, Cons(s, more), rest)
  {
    hide Code, Unbranched;
    var c := LoopEnd(k, words, base, s, b, a);
    hide StmtCode, BlockCode;
    rest := r + c + tail;
    assert Code(k, words, Lead(b)) + r + c + tail == Code(k, words, Lead(b)) + rest;
    LoopLead(s, b, more);
  }

  lemma LoopLead(s: Stmt, b: Block, more: Block)
    requires s.BeginUntil? || s.BeginAgain? || s.BeginWhile?
    requires b == if s.BeginWhile? then s.test else s.body
    ensures Lead(Cons(s, more)) == Lead(b) && !Unbranched(Cons(s, more))
  {
  }

  lemma LoopEnd(k: Link, words: seq<Word>, base: nat, s: Stmt, b: Block, a: nat) returns (c: seq<nat>)
    requires StmtSpelled(words, base, s) && (s.BeginUntil? || s.BeginAgain? || s.BeginWhile?)
    requires b == if s.BeginWhile? then s.test else s.body
    ensures StmtCode(k, words, base, s, a) == BlockCode(k, words, base, b, a) + c && c != [] && FirstRoutine(k, c[0])
  {
    hide BlockCode, Size, Spelled;
    match s
    case BeginUntil(_) => c := Two(k.zeroBranch, a);
    case BeginAgain(_) => c := Two(k.branch, a);
    case BeginWhile(test, body) =>
      var inner := a + 16 + 8 * Size(test);
      c := Two(k.zeroBranch, inner + 16 + 8 * Size(body)) + (BlockCode(k, words, base, body, inner) + Two(k.branch, a));
  }

  /** Word i holds the code of the block, compiled when there were the older words. */
  ghost predicate HoldsBlock(k: Link, older: seq<Word>, words: seq<Word>, i: nat, base: nat, b: Block, a: nat)
    requires Spelled(older, base, b)
  {
    && older <= words && i < |words| && words[i].code == k.doColon
    && words[i].cells == BlockCode(k, older, base, b, a) + [SENTINEL]
  }

  /** The leading items mean something, and the return stack and the iterations suffice. */
  ghost predicate LeadRuns(m: Machine, defs: seq<Def>, st: Store, items: seq<Item>, fuel: nat) {
    && Grounded(defs) && CallsBelow(items, |defs|) && Meaning(defs, |defs|, items, st).Some?
    && |m.rs| + 1 + Nesting(defs, |defs|, items) <= STACK_SIZE && fuel > Cost(defs, |defs|, items)
  }

  /** forth_inner does not dispatch on the routines of control flow.  Executing a word with any block does what the
      items before the first of them mean, and then returns: with the return stack and the null instruction pointer
      of before if and only if the block has no control flow.  Otherwise the instruction pointer stays one cell
      behind that routine, and the null one is left on the return stack. */
  lemma ControlIsNotRun(k: Link, m: Machine, words: seq<Word>, defs: seq<Def>, st: Store, older: seq<Word>,
                        i: nat, base: nat, b: Block, a: nat, fuel: nat) returns (n: Machine)
    requires Rep(k, m, words, defs, st) && m.ip == 0 && Spelled(older, base, b)
    requires HoldsBlock(k, older, words, i, base, b, a) && LeadRuns(m, defs, st, Lead(b), fuel)
    requires Unrun(k, k.zeroBranch) && Unrun(k, k.branch) && Unrun(k, k.enter)
    ensures Execute(k, m, words[i].addr, fuel) == Some(n)
    ensures Rep(k, n, words, defs, Meaning(defs, |defs|, Lead(b), st).value)
    ensures n.rs == m.rs <==> Unbranched(b)
    ensures n.ip == 0 <==> Unbranched(b)
    ensures !Unbranched(b) ==>
              && n.rs == Push(m.rs, 0) && CallsBelow(Lead(b), |words|)
              && n.ip == CellAddr(words[i], |Code(k, words, Lead(b))| + 1)
  {
    hide BlockCode, Spelled, Lead, Unbranched, Rep, Execute, Meaning, Nesting, Cost, CellAddr;
    var rest := LeadCode(k, older, base, b, a);
    CodeExtends(k, older, words[|older|..], Lead(b));
    assert older + words[|older|..] == words;
    BelowMore(Lead(b), |older|, |words|);
    assert words[i].cells == Code(k, words, Lead(b)) + (rest + [SENTINEL]);
    if Unbranched(b) {
      assert rest + [SENTINEL] == [SENTINEL];
      n := RunsToEnd(k, m, words, defs, st, i, |defs|, Lead(b), fuel);
    } else {
      n := StopsInside(k, m, words, defs, st, i, |defs|, Lead(b), rest + [SENTINEL], fuel);
      CellsAbove(words[i], |Code(k, words, Lead(b))| + 1);
    }
  }

  lemma BelowMore(items: seq<Item>, n: nat, m: nat)
    requires CallsBelow(items, n) && n <= m
    ensures CallsBelow(items, m)
  {
    forall x | 0 <= x < |items| ensures CallBelow(items[x], m) { assert CallBelow(items[x], n); }
  }

  lemma CellsAbove(w: Word, j: nat)
    ensures CellAddr(w, j) != 0
  {
  }
}
