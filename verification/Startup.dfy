/** vm/core/forth.c, lines 547-640: the table of register_primitives, and the sessions that begin with it. */
module Startup {
  import opened Cells
  import opened Dictionary
  import opened Numbers
  import opened ForthWords
  import opened ForthMachine
  import opened ForthCompiler
  import opened CompileProofs
  import opened Session
  import C = ControlFlow

  // ----- the calls of dict_add_primitive, in order -----

  function StackNames(): seq<Text> {
    ["DUP", "DROP", "SWAP", "OVER", "ROT", "NIP", "TUCK", "2DUP", "2DROP", "2SWAP", "?DUP", "DEPTH"]
  }

  function ArithmeticNames(): seq<Text> {
    ["+", "-", "*", "/", "MOD", "/MOD", "NEGATE", "ABS", "MIN", "MAX", "1+", "1-", "2*", "2/"]
  }

  function LogicNames(): seq<Text> {
    ["AND", "OR", "XOR", "INVERT", "LSHIFT", "RSHIFT", "=", "<>", "<", ">", "<=", ">=", "0=", "0<", "0>"]
  }

  function MemoryNames(): seq<Text> { [">R", "R>", "R@", "@", "!", "C@", "C!", "+!", "HERE", "ALLOT", ",", "C,"] }

  function PrintNames(): seq<Text> {
    [".", "U.", ".S", ".HEX", "EMIT", "CR", "SPACE", "SPACES", "TYPE", ".\"", "("]
  }

  function DefiningNames(): seq<Text> {
    [":", ";", "VARIABLE", "CONSTANT", "CREATE", "IMMEDIATE", "'", "EXECUTE", "SEE"]
  }

  function ControlNames(): seq<Text> {
    ["IF", "ELSE", "THEN", "BEGIN", "UNTIL", "AGAIN", "WHILE", "REPEAT", "DO", "LOOP"]
  }

  function SystemNames(): seq<Text> {
    ["I", "WORDS", "STATUS", "DUMP", "FORK", "YIELD", "CLEAR", "BYE", "BASE", "DECIMAL", "HEX",
     "BLOCK", "UPDATE", "FLUSH", "EDIT", "VDUP", "V+", "LOAD"]
  }

  function Calculating(): seq<Text> { ArithmeticNames() + LogicNames() }
  function Middle(): seq<Text> { MemoryNames() + PrintNames() }
  function Ending(): seq<Text> { ControlNames() + SystemNames() }
  function Late(): seq<Text> { DefiningNames() + Ending() }
  function Names(): seq<Text> { StackNames() + (Calculating() + (Middle() + Late())) }

  function ImmediateNames(): seq<Text> { [".\"", "(", ";"] + ControlNames() }

  /** register_primitives; `at` is where the linker has put the C function of each name. */
  function KernelTable(at: Text -> U64): (t: seq<Registration>)
    ensures |t| == |Names()|
  {
    var names := Names();
    seq(|names|, i requires 0 <= i < |names| =>
      Registration(names[i], at(names[i]), if names[i] in ImmediateNames() then F_IMMEDIATE else 0))
  }

  // ----- no name is registered twice -----

  /** The names have other lengths, or another letter among the first three. */
  predicate Differ(n: Text, m: Text) {
    || |n| != |m|
    || (|n| > 0 && !SameLetter(n, m, 0))
    || (|n| > 1 && !SameLetter(n, m, 1))
    || (|n| > 2 && !SameLetter(n, m, 2))
  }

  ghost predicate Once(names: seq<Text>) {
    && (forall i :: 0 <= i < |names| ==> |names[i]| <= MAX_NAME)
    && forall i, j :: 0 <= i < j < |names| ==> Differ(names[i], names[j])
  }

  ghost predicate Apart(n: seq<Text>, m: seq<Text>) {
    forall i, j :: 0 <= i < |n| && 0 <= j < |m| ==> Differ(n[i], m[j])
  }

  lemma OnceBoth(n: seq<Text>, m: seq<Text>)
    requires Once(n) && Once(m) && Apart(n, m)
    ensures Once(n + m)
  {
    hide Differ;
  }

  lemma ApartBoth(n: seq<Text>, m: seq<Text>, o: seq<Text>)
    requires Apart(n, m) && Apart(n, o)
    ensures Apart(n, m + o)
  {
    hide Differ;
  }

  lemma BothApart(n: seq<Text>, m: seq<Text>, o: seq<Text>)
    requires Apart(n, o) && Apart(m, o)
    ensures Apart(n + m, o)
  {
    hide Differ;
  }

  lemma StackDiffer()
    ensures forall i :: 0 <= i < |StackNames()| ==> |StackNames()[i]| <= MAX_NAME
    ensures forall i, j :: 0 <= i < j < |StackNames()| ==> Differ(StackNames()[i], StackNames()[j])
  {
  }

  lemma ArithmeticDiffer()
    ensures forall i :: 0 <= i < |ArithmeticNames()| ==> |ArithmeticNames()[i]| <= MAX_NAME
    ensures forall i, j :: 0 <= i < j < |ArithmeticNames()| ==> Differ(ArithmeticNames()[i], ArithmeticNames()[j])
  {
  }

  lemma LogicDiffer()
    ensures forall i :: 0 <= i < |LogicNames()| ==> |LogicNames()[i]| <= MAX_NAME
    ensures forall i, j :: 0 <= i < j < |LogicNames()| ==> Differ(LogicNames()[i], LogicNames()[j])
  {
  }

  lemma MemoryDiffer()
    ensures forall i :: 0 <= i < |MemoryNames()| ==> |MemoryNames()[i]| <= MAX_NAME
    ensures forall i, j :: 0 <= i < j < |MemoryNames()| ==> Differ(MemoryNames()[i], MemoryNames()[j])
  {
  }

  lemma PrintDiffer()
    ensures forall i :: 0 <= i < |PrintNames()| ==> |PrintNames()[i]| <= MAX_NAME
    ensures forall i, j :: 0 <= i < j < |PrintNames()| ==> Differ(PrintNames()[i], PrintNames()[j])
  {
  }

  lemma DefiningDiffer()
    ensures forall i :: 0 <= i < |DefiningNames()| ==> |DefiningNames()[i]| <= MAX_NAME
    ensures forall i, j :: 0 <= i < j < |DefiningNames()| ==> Differ(DefiningNames()[i], DefiningNames()[j])
  {
  }

  lemma ControlDiffer()
    ensures forall i :: 0 <= i < |ControlNames()| ==> |ControlNames()[i]| <= MAX_NAME
    ensures forall i, j :: 0 <= i < j < |ControlNames()| ==> Differ(ControlNames()[i], ControlNames()[j])
  {
  }

  lemma SystemDiffer()
    ensures forall i :: 0 <= i < |SystemNames()| ==> |SystemNames()[i]| <= MAX_NAME
    ensures forall i, j :: 0 <= i < j < |SystemNames()| ==> Differ(SystemNames()[i], SystemNames()[j])
  {
  }

  lemma StackCalculating()
    ensures forall i, j :: 0 <= i < |StackNames()| && 0 <= j < |Calculating()| ==>
              Differ(StackNames()[i], Calculating()[j])
  {
  }

  lemma StackMiddle()
    ensures forall i, j :: 0 <= i < |StackNames()| && 0 <= j < |Middle()| ==> Differ(StackNames()[i], Middle()[j])
  {
  }

  lemma StackLate()
    ensures forall i, j :: 0 <= i < |StackNames()| && 0 <= j < |Late()| ==> Differ(StackNames()[i], Late()[j])
  {
  }

  lemma ArithmeticLogic()
    ensures forall i, j :: 0 <= i < |ArithmeticNames()| && 0 <= j < |LogicNames()| ==>
              Differ(ArithmeticNames()[i], LogicNames()[j])
  {
  }

  lemma ArithmeticMiddle()
    ensures forall i, j :: 0 <= i < |ArithmeticNames()| && 0 <= j < |Middle()| ==>
              Differ(ArithmeticNames()[i], Middle()[j])
  {
  }

  lemma ArithmeticLate()
    ensures forall i, j :: 0 <= i < |ArithmeticNames()| && 0 <= j < |Late()| ==> Differ(ArithmeticNames()[i], Late()[j])
  {
  }

  lemma LogicMiddle()
    ensures forall i, j :: 0 <= i < |LogicNames()| && 0 <= j < |Middle()| ==> Differ(LogicNames()[i], Middle()[j])
  {
  }

  lemma LogicLate()
    ensures forall i, j :: 0 <= i < |LogicNames()| && 0 <= j < |Late()| ==> Differ(LogicNames()[i], Late()[j])
  {
  }

  lemma MemoryPrint()
    ensures forall i, j :: 0 <= i < |MemoryNames()| && 0 <= j < |PrintNames()| ==>
              Differ(MemoryNames()[i], PrintNames()[j])
  {
  }

  lemma MemoryLate()
    ensures forall i, j :: 0 <= i < |MemoryNames()| && 0 <= j < |Late()| ==> Differ(MemoryNames()[i], Late()[j])
  {
  }

  lemma PrintLate()
    ensures forall i, j :: 0 <= i < |PrintNames()| && 0 <= j < |Late()| ==> Differ(PrintNames()[i], Late()[j])
  {
  }

  lemma DefiningEnding()
    ensures forall i, j :: 0 <= i < |DefiningNames()| && 0 <= j < |Ending()| ==> Differ(DefiningNames()[i], Ending()[j])
  {
  }

  lemma ControlSystem()
    ensures forall i, j :: 0 <= i < |ControlNames()| && 0 <= j < |SystemNames()| ==>
              Differ(ControlNames()[i], SystemNames()[j])
  {
  }

  lemma EarlyOnce()
    ensures Once(Calculating()) && Once(Middle()) && Apart(Calculating(), Middle())
  {
    hide StackNames, ArithmeticNames, LogicNames, MemoryNames, PrintNames, Differ;
    ArithmeticDiffer();
    LogicDiffer();
    MemoryDiffer();
    PrintDiffer();
    ArithmeticLogic();
    MemoryPrint();
    ArithmeticMiddle();
    LogicMiddle();
    OnceBoth(ArithmeticNames(), LogicNames());
    OnceBoth(MemoryNames(), PrintNames());
    BothApart(ArithmeticNames(), LogicNames(), Middle());
  }

  lemma LateOnce()
    ensures Once(Late())
  {
    hide DefiningNames, ControlNames, SystemNames, Differ;
    DefiningDiffer();
    ControlDiffer();
    SystemDiffer();
    ControlSystem();
    OnceBoth(ControlNames(), SystemNames());
    DefiningEnding();
    OnceBoth(DefiningNames(), Ending());
  }

  lemma EarlyLate()
    ensures Apart(Calculating(), Late()) && Apart(Middle(), Late())
  {
    hide ArithmeticNames, LogicNames, MemoryNames, PrintNames, Late, Differ;
    ArithmeticLate();
    LogicLate();
    MemoryLate();
    PrintLate();
    BothApart(ArithmeticNames(), LogicNames(), Late());
    BothApart(MemoryNames(), PrintNames(), Late());
  }

  /** No primitive shadows another one. */
  lemma NamesOnce()
    ensures Once(Names())
  {
    hide StackNames, Calculating, Middle, Late, Differ;
    EarlyOnce();
    LateOnce();
    EarlyLate();
    StackDiffer();
    StackCalculating();
    StackMiddle();
    StackLate();
    ApartBoth(Calculating(), Middle(), Late());
    ApartBoth(StackNames(), Middle(), Late());
    ApartBoth(StackNames(), Calculating(), Middle() + Late());
    OnceBoth(Middle(), Late());
    OnceBoth(Calculating(), Middle() + Late());
    OnceBoth(StackNames(), Calculating() + (Middle() + Late()));
  }

  // ----- what the names find -----

  function StackOps(): (ops: seq<ForthWords.Op>)
    ensures |ops| == |StackNames()|
  {
    [Dup, Drop, ForthWords.Swap, Over, Rot, Nip, Tuck, TwoDup, TwoDrop, ForthWords.TwoSwap, QDup, Depth]
  }

  function ArithmeticOps(): (ops: seq<ForthWords.Op>)
    ensures |ops| == |ArithmeticNames()|
  {
    [Plus, Minus, Mul, Div, Mod, DivMod, Negate, Abs, Min, Max, OnePlus, OneMinus, TwoStar, TwoSlash]
  }

  function LogicOps(): (ops: seq<ForthWords.Op>)
    ensures |ops| == |LogicNames()|
  {
    [And, Or, Xor, Invert, LShift, RShift, Eq, Neq, Lt, Gt, Le, Ge, ZeroEq, ZeroLt, ZeroGt]
  }

  predicate PlacedAt(k: Link, at: Text -> U64, name: Text, f: Routine) {
    at(name) in k.routines && k.routines[at(name)] == f
  }

  ghost predicate AllPlaced(k: Link, at: Text -> U64, names: seq<Text>, ops: seq<ForthWords.Op>)
    requires |names| == |ops|
  {
    forall i :: 0 <= i < |names| ==> PlacedAt(k, at, names[i], Basic(Calc(ops[i])))
  }

  /** The linker has put the modelled C functions where the table says. */
  ghost predicate Placed(k: Link, at: Text -> U64) {
    && AllPlaced(k, at, StackNames(), StackOps()) && AllPlaced(k, at, ArithmeticNames(), ArithmeticOps())
    && AllPlaced(k, at, LogicNames(), LogicOps()) && PlacedAt(k, at, "@", Basic(Fetch))
    && PlacedAt(k, at, "!", Basic(Store)) && PlacedAt(k, at, "+!", Basic(PlusStore))
    && PlacedAt(k, at, ":", ColonWord) && PlacedAt(k, at, ";", SemicolonWord)
    && PlacedAt(k, at, "VARIABLE", VariableWord) && PlacedAt(k, at, "CONSTANT", ConstantWord)
    && forall c: Control :: PlacedAt(k, at, C.Spelling(c), Flow(c))
  }

  /** The name finds a word of the fragment. */
  ghost predicate Provides(w: World, name: Text, p: Prim)
    requires |w.words| == |w.defs|
  {
    var r := Lookup(w.words, name);
    r >= 0 && !Immediate(w.words[r].flags) && w.defs[r] == Native(p)
  }

  ghost predicate AllProvided(w: World, names: seq<Text>, ops: seq<ForthWords.Op>)
    requires |w.words| == |w.defs| && |names| == |ops|
  {
    forall i :: 0 <= i < |names| ==> Provides(w, names[i], Calc(ops[i]))
  }

  ghost function KernelWorld(k: Link, at: Text -> U64): (w: World)
    ensures Sound(k, w)
  {
    TableWorld(k, KernelTable(at))
  }

  lemma DifferNotSame(n: Text, m: Text)
    requires Differ(n, m)
    ensures !SameName(m, n)
  {
    if |n| == |m| {
      if |n| > 0 && !SameLetter(n, m, 0) { assert !SameLetter(m, n, 0); }
      else if |n| > 1 && !SameLetter(n, m, 1) { assert !SameLetter(m, n, 1); }
      else { assert !SameLetter(m, n, 2); }
    }
  }

  /** Every name finds its own entry. */
  lemma OwnEntry(at: Text -> U64, i: nat)
    requires i < |Names()|
    ensures LastEntry(KernelTable(at), |Names()|, Names()[i]) == i
  {
    hide Names, ImmediateNames;
    NamesOnce();
    var table, name := KernelTable(at), Names()[i];
    var r := LastEntry(table, |table|, name);
    SmallLen(name);
    FlagsShow();
    assert name[..|name|] == name;
    assert Matching(table[i], name);
    if r > i {
      var later := Names()[r];
      SmallLen(later);
      assert later[..|later|] == later;
      assert Differ(name, later);
      DifferNotSame(name, later);
    }
  }

  lemma FlagsShow()
    ensures !Hidden(TopBits(0)) && !Hidden(TopBits(F_IMMEDIATE))
    ensures !Immediate(TopBits(0)) && Immediate(TopBits(F_IMMEDIATE))
  {
  }

  lemma KernelLookup(k: Link, at: Text -> U64, name: Text)
    requires name in Names()
    ensures var w, r := KernelWorld(k, at), Lookup(KernelWorld(k, at).words, name);
            && r >= 0 && w.words[r].code == at(name) && w.defs[r] == NativeDef(k, at(name))
            && (Immediate(w.words[r].flags) <==> name in ImmediateNames())
  {
    hide Names, ImmediateNames, LastEntry, TableWords;
    var i :| 0 <= i < |Names()| && Names()[i] == name;
    OwnEntry(at, i);
    TableLookup(BASE, KernelTable(at), |Names()|, name);
    FlagsShow();
  }

  lemma KernelHas(k: Link, at: Text -> U64, name: Text, f: Routine)
    requires name in Names() && PlacedAt(k, at, name, f)
    ensures HasWord(k, KernelWorld(k, at).words, name, f)
    ensures name in ImmediateNames() ==> HasImmediate(k, KernelWorld(k, at).words, name, f)
  {
    hide Names, ImmediateNames, Lookup;
    KernelLookup(k, at, name);
  }

  lemma KernelProvides(k: Link, at: Text -> U64, name: Text, p: Prim)
    requires name in Names() && name !in ImmediateNames() && PlacedAt(k, at, name, Basic(p))
    ensures Provides(KernelWorld(k, at), name, p)
  {
    hide Names, ImmediateNames, Lookup;
    KernelLookup(k, at, name);
  }

  lemma KernelProvidesAll(k: Link, at: Text -> U64, names: seq<Text>, ops: seq<ForthWords.Op>)
    requires |names| == |ops| && AllPlaced(k, at, names, ops)
    requires forall i :: 0 <= i < |names| ==> names[i] in Names() && names[i] !in ImmediateNames()
    ensures AllProvided(KernelWorld(k, at), names, ops)
  {
    hide Names, ImmediateNames, Provides;
    forall i | 0 <= i < |names| ensures Provides(KernelWorld(k, at), names[i], Calc(ops[i])) {
      KernelProvides(k, at, names[i], Calc(ops[i]));
    }
  }

  /** Plain words are not immediate. */
  lemma PlainNames()
    ensures forall i :: 0 <= i < |StackNames()| ==> StackNames()[i] !in ImmediateNames()
    ensures forall i :: 0 <= i < |ArithmeticNames()| ==> ArithmeticNames()[i] !in ImmediateNames()
    ensures forall i :: 0 <= i < |LogicNames()| ==> LogicNames()[i] !in ImmediateNames()
  {
  }

  lemma Listed(name: Text)
    ensures name in StackNames() || name in ArithmeticNames() || name in LogicNames() || name in MemoryNames() ==>
              name in Names()
    ensures name in DefiningNames() || name in ControlNames() ==> name in Names()
    ensures name in ControlNames() ==> name in ImmediateNames()
  {
    hide StackNames, ArithmeticNames, LogicNames, MemoryNames, PrintNames, DefiningNames, ControlNames, SystemNames;
  }

  lemma AllListed()
    ensures forall i :: 0 <= i < |StackNames()| ==> StackNames()[i] in Names()
    ensures forall i :: 0 <= i < |ArithmeticNames()| ==> ArithmeticNames()[i] in Names()
    ensures forall i :: 0 <= i < |LogicNames()| ==> LogicNames()[i] in Names()
  {
    hide StackNames, ArithmeticNames, LogicNames, Names;
    forall i | 0 <= i < |StackNames()| ensures StackNames()[i] in Names() { Listed(StackNames()[i]); }
    forall i | 0 <= i < |ArithmeticNames()| ensures ArithmeticNames()[i] in Names() { Listed(ArithmeticNames()[i]); }
    forall i | 0 <= i < |LogicNames()| ensures LogicNames()[i] in Names() { Listed(LogicNames()[i]); }
  }

  lemma MemoryWords()
    ensures "@" in MemoryNames() && "!" in MemoryNames() && "+!" in MemoryNames()
    ensures "@" !in ImmediateNames() && "!" !in ImmediateNames() && "+!" !in ImmediateNames()
  {
    assert MemoryNames()[3] == "@" && MemoryNames()[4] == "!" && MemoryNames()[7] == "+!";
  }

  lemma DefiningWords()
    ensures ":" in DefiningNames() && ";" in DefiningNames() && "VARIABLE" in DefiningNames()
    ensures "CONSTANT" in DefiningNames() && ";" in ImmediateNames()
  {
    assert DefiningNames()[0] == ":" && DefiningNames()[1] == ";";
    assert DefiningNames()[2] == "VARIABLE" && DefiningNames()[3] == "CONSTANT" && ImmediateNames()[2] == ";";
  }

  lemma ControlSpelled(c: Control)
    ensures C.Spelling(c) in ControlNames()
  {
    var names := ControlNames();
    assert names[0] == "IF" && names[1] == "ELSE" && names[2] == "THEN" && names[3] == "BEGIN" && names[4] == "UNTIL";
    assert names[5] == "AGAIN" && names[6] == "WHILE" && names[7] == "REPEAT" && names[8] == "DO" && names[9] == "LOOP";
  }

  /** The kernel's own table fits the dictionary. */
  lemma KernelFits(at: Text -> U64)
    ensures TableEnd(BASE, KernelTable(at)) <= LIMIT
  {
    TableFits(BASE, KernelTable(at));
    assert |Names()| < 200;
  }

  /** The names of the fragment find their C functions. */
  ghost predicate HasFragment(w: World)
    requires |w.words| == |w.defs|
  {
    && AllProvided(w, StackNames(), StackOps()) && AllProvided(w, ArithmeticNames(), ArithmeticOps())
    && AllProvided(w, LogicNames(), LogicOps())
    && Provides(w, "@", Fetch) && Provides(w, "!", Store) && Provides(w, "+!", PlusStore)
  }

  /** And so do those of the compiler. */
  ghost predicate HasCompiler(k: Link, words: seq<Word>) {
    && HasWord(k, words, ":", ColonWord) && HasImmediate(k, words, ";", SemicolonWord)
    && HasWord(k, words, "VARIABLE", VariableWord) && HasWord(k, words, "CONSTANT", ConstantWord)
    && C.HasControls(k, words)
  }

  lemma FragmentReady(k: Link, at: Text -> U64)
    requires Placed(k, at)
    ensures HasFragment(KernelWorld(k, at))
  {
    hide Names, ImmediateNames, StackNames, ArithmeticNames, LogicNames, MemoryNames, AllPlaced, AllProvided;
    hide Provides, PlacedAt, KernelWorld;
    AllListed();
    PlainNames();
    KernelProvidesAll(k, at, StackNames(), StackOps());
    KernelProvidesAll(k, at, ArithmeticNames(), ArithmeticOps());
    KernelProvidesAll(k, at, LogicNames(), LogicOps());
    MemoryWords();
    Listed("@");
    Listed("!");
    Listed("+!");
    KernelProvides(k, at, "@", Fetch);
    KernelProvides(k, at, "!", Store);
    KernelProvides(k, at, "+!", PlusStore);
  }

  lemma CompilerReady(k: Link, at: Text -> U64)
    requires Placed(k, at)
    ensures HasCompiler(k, KernelWorld(k, at).words)
  {
    hide Names, ImmediateNames, DefiningNames, ControlNames, AllPlaced, PlacedAt, HasWord, HasImmediate, KernelWorld;
    hide C.Spelling;
    DefiningWords();
    Listed(":");
    Listed(";");
    Listed("VARIABLE");
    Listed("CONSTANT");
    KernelHas(k, at, ":", ColonWord);
    KernelHas(k, at, ";", SemicolonWord);
    KernelHas(k, at, "VARIABLE", VariableWord);
    KernelHas(k, at, "CONSTANT", ConstantWord);
    forall c: Control ensures HasImmediate(k, KernelWorld(k, at).words, C.Spelling(c), Flow(c)) {
      ControlSpelled(c);
      Listed(C.Spelling(c));
      KernelHas(k, at, C.Spelling(c), Flow(c));
    }
  }

  /** After the kernel's forth_init the machine stands for the words of register_primitives, and the names of the
      fragment, of the compiler and of control flow find their own functions. */
  lemma KernelReady(k: Link, at: Text -> U64) returns (n: Machine)
    requires LinkOk(k) && Placed(k, at)
    ensures Register(StartMachine(), KernelTable(at)) == Some(n) && Stands(k, n, KernelWorld(k, at))
    ensures HasFragment(KernelWorld(k, at)) && HasCompiler(k, KernelWorld(k, at).words)
  {
    KernelFits(at);
    n := Initialised(k, KernelTable(at));
    FragmentReady(k, at);
    CompilerReady(k, at);
    hide *;
  }

  /** However the letters of a kernel name are written, in capitals or not, dict_find returns its own entry. */
  lemma AnySpelling(k: Link, at: Text -> U64, n: Machine, name: Text, t: Text)
    requires name in Names() && SameButCase(name, t) && Stands(k, n, KernelWorld(k, at))
    ensures var f := Find(n.dict.mem, n.dict.latest, t);
            && f.Entry? && InCell(CodeField(n.dict.mem, f.e))
            && ReadCell(n.dict.mem, CodeField(n.dict.mem, f.e)) == at(name)
            && (Immediate(FlagsOf(n.dict.mem, f.e)) <==> name in ImmediateNames())
  {
    hide Names, ImmediateNames, Lookup, KernelWorld, Find;
    KernelLookup(k, at, name);
    FindWord(n.dict, KernelWorld(k, at).words, name);
    SpellingsFind(n.dict.mem, n.dict.latest, name, t);
  }

  /** And in every session after it each event is carried out, and every word of the fragment then terminates. */
  lemma KernelSession(k: Link, at: Text -> U64, es: seq<Event>, fuel: nat) returns (n: Machine)
    requires LinkOk(k) && Placed(k, at) && AllPossible(k, KernelWorld(k, at), es, fuel)
    ensures var w := AllNext(k, KernelWorld(k, at), es, fuel);
            && AfterAll(k, StartMachine(), Registrations(KernelTable(at)) + es, fuel) == Some(n) && Stands(k, n, w)
            && forall i :: 0 <= i < |w.defs| ==> Terminates(k, n, w, i)
  {
    KernelFits(at);
    n := InitialisedSession(k, KernelTable(at), es, fuel);
  }
}
