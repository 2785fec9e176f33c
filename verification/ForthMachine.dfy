/**
  vm/core/forth.c, lines 66-133: forth_execute and the inner interpreter on the dictionary's bytes,
  and why they do what the compiled words mean.
 */
module ForthMachine {
  import opened Cells
  import opened Dictionary
  import opened Numbers
  import opened Stacks
  import opened ForthWords
  import opened Width

  const SENTINEL: U64 := 0xDEAD_C0DE_0000_0000

  type Returns = s: seq<U64> | |s| <= STACK_SIZE

  datatype Mode = Interpret | Compile

  datatype Machine = Machine(dict: Space, ds: Data, rs: Returns, ip: U64, mode: Mode, base: nat)

  /** The machine as forth_init sets it up, before it registers the primitives. */
  function StartMachine(): Machine { Machine(Blank(), [], [], 0, Interpret, 10) }

  /** The control-flow words of the compiler. */
  datatype Control = If | Else | Then | Begin | Until | Again | While | Repeat | Do | Loop

  /** The C functions that code fields point to, as far as they are modelled. */
  datatype Routine = Basic(p: Prim) | ColonWord | SemicolonWord | VariableWord | ConstantWord | Flow(c: Control)

  /** Where the linker has put the code. */
  datatype Link = Link(doColon: U64, doLiteral: U64, doVariable: U64, doConstant: U64,
                       branch: U64, zeroBranch: U64, enter: U64, loop: U64, routines: map<U64, Routine>)

  ghost predicate LinkOk(k: Link) {
    && k.doColon != k.doVariable && k.doColon != k.doConstant && k.doVariable != k.doConstant
    && k.doColon !in k.routines && k.doVariable !in k.routines && k.doConstant !in k.routines
    && k.doLiteral != SENTINEL && !(BASE <= k.doLiteral < LIMIT)
  }

  // ----- the code -----

  function WithTop(m: Machine, v: I64): Machine { m.(ds := Push(m.ds, v)) }

  /** A primitive; None when it traps or touches memory outside the dictionary. */
  function RunPrim(p: Prim, m: Machine): Option<Machine> {
    var s := m.ds;
    var a := Unsigned(Top(s));
    match p
    case Calc(op) => (match Apply(op, s) case None => None case Some(t) => Some(m.(ds := t)))
    case Fetch =>
      if InCell(a) then Some(m.(ds := Push(Rest(s), Signed(ReadCell(m.dict.mem, a))))) else None
    case Store =>
      if InCell(a) then Some(Poke(m.(ds := Rest(Rest(s))), a, Unsigned(Top(Rest(s))))) else None
    case PlusStore =>
      if InCell(a) then
        Some(Poke(m.(ds := Rest(Rest(s))), a, (ReadCell(m.dict.mem, a) + Unsigned(Top(Rest(s)))) % TWO64))
      else None
  }

  function Poke(m: Machine, a: nat, v: nat): Machine
    requires InCell(a)
  {
    m.(dict := m.dict.(mem := WriteCell(m.dict.mem, a, v)))
  }

  /** What executing an entry starts: the body of a colon word, or all of any other word. */
  datatype Start = Entered(m: Machine) | Did(m: Machine) | Off

  /** The dispatch on the code field shared by forth_execute and forth_inner. */
  function Dispatch(k: Link, m: Machine, e: nat): Start {
    var mem := m.dict.mem;
    if !HeaderAt(mem, e) || !InCell(CodeField(mem, e)) then Off
    else DispatchTo(k, m, ReadCell(mem, CodeField(mem, e)), ParamField(mem, e))
  }

  function DispatchTo(k: Link, m: Machine, code: U64, param: U64): Start {
    if code == k.doColon then Entered(m.(rs := Push(m.rs, m.ip), ip := param))
    else if code == k.doVariable then Did(WithTop(m, Signed(param)))
    else if code == k.doConstant then
      if InCell(param) then Did(WithTop(m, Signed(ReadCell(m.dict.mem, param)))) else Off
    else if code in k.routines && k.routines[code].Basic? then
      match RunPrim(k.routines[code].p, m)
      case None => Off
      case Some(n) => Did(n)
    else Off
  }

  /** How an iteration of forth_inner ends. */
  datatype Outcome = Running(m: Machine) | Returned(m: Machine) | Fault

  /** One iteration of forth_inner. */
  function Iterate(k: Link, m: Machine): Outcome {
    if !InCell(m.ip) then Fault
    else
      var cell := ReadCell(m.dict.mem, m.ip);
      var n := m.(ip := m.ip + 8);
      if cell == SENTINEL then
        var ip := Peek(n.rs, 0);
        var r := n.(rs := Rest(n.rs), ip := ip);
        if ip == 0 then Returned(r) else Running(r)
      else if cell == k.doLiteral then
        if !InCell(n.ip) then Fault
        else Running(WithTop(n.(ip := n.ip + 8), Signed(ReadCell(n.dict.mem, n.ip))))
      else if !(BASE <= cell < LIMIT) then Returned(n)
      else
        match Dispatch(k, n, cell)
        case Entered(r) => Running(r)
        case Did(r) => Running(r)
        case Off => Fault
  }

  /** n iterations of forth_inner. */
  function Steps(k: Link, m: Machine, n: nat): Outcome
    decreases n
  {
    if n == 0 then Running(m)
    else
      match Iterate(k, m)
      case Running(r) => Steps(k, r, n - 1)
      case Returned(r) => Returned(r)
      case Fault => Fault
  }

  lemma OneStep(k: Link, m: Machine)
    ensures Steps(k, m, 1) == Iterate(k, m)
  {
    hide Iterate;
  }

  lemma {:induction false} StepsAdd(k: Link, m: Machine, a: nat, b: nat)
    requires Steps(k, m, a).Running?
    ensures Steps(k, m, a + b) == Steps(k, Steps(k, m, a).m, b)
    decreases a
  {
    hide Iterate;
    if a > 0 { StepsAdd(k, Iterate(k, m).m, a - 1, b); }
  }

  /** forth_execute, when forth_inner returns within n iterations. */
  function Execute(k: Link, m: Machine, e: nat, n: nat): Option<Machine> {
    match Dispatch(k, m, e)
    case Entered(r) => (match Steps(k, r, n) case Returned(s) => Some(s) case Running(_) => None case Fault => None)
    case Did(r) => Some(r)
    case Off => None
  }

  // ----- what the memory holds -----

  function CellsOf(k: Link, words: seq<Word>, it: Item): seq<nat>
    requires CallBelow(it, |words|)
  {
    match it
    case Lit(v) => [k.doLiteral, Unsigned(v)]
    case Call(w) => [words[w].addr]
  }

  /** The cells a sequence of items is compiled to. */
  function Code(k: Link, words: seq<Word>, items: seq<Item>): seq<nat>
    requires CallsBelow(items, |words|)
  {
    if items == [] then []
    else
      assert CallBelow(items[0], |words|);
      CellsOf(k, words, items[0]) + Code(k, words, items[1..])
  }

  /** The i-th word is stored as its definition says. */
  ghost predicate Defines(k: Link, words: seq<Word>, defs: seq<Def>, i: nat)
    requires i < |words| == |defs|
  {
    var w := words[i];
    match defs[i]
    case Native(p) => w.code in k.routines && k.routines[w.code] == Basic(p)
    case Colon(body) =>
      CallsBelow(body, i) && w.code == k.doColon && w.cells == Code(k, words, body) + [SENTINEL]
    case Variable(cell) => w.code == k.doVariable && w.cells == [] && w.room > 0 && cell == CellAddr(w, 0)
    case Constant(v) => w.code == k.doConstant && w.cells == [Unsigned(v)]
    case Foreign => true
  }

  ghost predicate AllDefined(k: Link, words: seq<Word>, defs: seq<Def>) {
    |words| == |defs| && forall i :: 0 <= i < |words| ==> Defines(k, words, defs, i)
  }

  ghost predicate IsVariable(defs: seq<Def>, a: nat) { exists i :: 0 <= i < |defs| && defs[i] == Variable(a) }

  ghost predicate Holds(mem: Region, a: nat, v: I64) { InCell(a) && ReadCell(mem, a) == Unsigned(v) }

  /** The variables' cells hold the store. */
  ghost predicate VarsAre(mem: Region, defs: seq<Def>, vars: map<nat, I64>) {
    forall a :: a in vars ==> IsVariable(defs, a) && Holds(mem, a, vars[a])
  }

  /** The machine's memory and data stack stand for these words, definitions and store. */
  ghost predicate Rep(k: Link, m: Machine, words: seq<Word>, defs: seq<Def>, st: Store) {
    && LinkOk(k) && Image(m.dict, words) && AllDefined(k, words, defs) && Grounded(defs)
    && m.ds == st.ds && VarsAre(m.dict.mem, defs, st.vars)
  }

  // ----- the primitives do what they mean -----

  lemma SignedUnsigned(v: I64, u: U64)
    ensures Unsigned(v) < TWO64 && Signed(Unsigned(v)) == v && Unsigned(Signed(u)) == u
  {
  }

  lemma AddedCells(x: I64, y: I64)
    ensures (Unsigned(x) + Unsigned(y)) % TWO64 == Unsigned(Wrap(x + y))
  {
    SignedUnsigned(0, (x + y) % TWO64);
  }

  /** Byte address a lies in one of the cells. */
  ghost predicate InCells(cells: set<nat>, a: int) { exists c :: c in cells && c <= a < c + 8 }

  /** The memories differ in those cells only. */
  ghost predicate OnlyCells(m: Region, n: Region, cells: set<nat>) {
    forall i :: 0 <= i < SIZE && !InCells(cells, BASE + i) ==> m[i] == n[i]
  }

  /** From m to n nothing moved but the data stack, the instruction pointer and the variables' cells. */
  ghost predicate Ran(m: Machine, n: Machine, cells: set<nat>) {
    && n.(ds := m.ds, ip := m.ip, dict := n.dict.(mem := m.dict.mem)) == m
    && OnlyCells(m.dict.mem, n.dict.mem, cells)
  }

  lemma RanTwice(m: Machine, n: Machine, o: Machine, cells: set<nat>)
    requires Ran(m, n, cells) && Ran(n, o, cells)
    ensures Ran(m, o, cells)
  {
  }

  lemma VariableCell(k: Link, d: Space, words: seq<Word>, defs: seq<Def>, a: nat) returns (i: nat)
    requires Image(d, words) && AllDefined(k, words, defs) && IsVariable(defs, a)
    ensures i < |words| && words[i].cells == [] && words[i].room > 0 && a == CellAddr(words[i], 0)
    ensures InCell(a) && words[i].addr < a && a + 8 <= End(words[i])
  {
    i :| 0 <= i < |defs| && defs[i] == Variable(a);
    assert Defines(k, words, defs, i) && StoredAt(d.mem, words, i);
  }

  /** Different variables do not overlap. */
  lemma VariablesApart(k: Link, d: Space, words: seq<Word>, defs: seq<Def>, a: nat, b: nat)
    requires Image(d, words) && AllDefined(k, words, defs) && IsVariable(defs, a) && IsVariable(defs, b) && a != b
    ensures InCell(a) && InCell(b) && (a + 8 <= b || b + 8 <= a)
  {
    var i := VariableCell(k, d, words, defs, a);
    var j := VariableCell(k, d, words, defs, b);
    if i < j { assert Before(words, i, j); } else if j < i { assert Before(words, j, i); }
  }

  lemma PokeVariable(k: Link, m: Machine, words: seq<Word>, defs: seq<Def>, st: Store, a: nat, v: I64)
    requires Rep(k, m, words, defs, st) && a in st.vars
    ensures InCell(a)
    ensures Rep(k, Poke(m, a, Unsigned(v)), words, defs, st.(vars := st.vars[a := v]))
    ensures Ran(m, Poke(m, a, Unsigned(v)), st.vars.Keys)
  {
    assert Holds(m.dict.mem, a, st.vars[a]);
    var i := VariableCell(k, m.dict, words, defs, a);
    StoreImage(m.dict, words, i, 0, Unsigned(v));
    var n, vars := Poke(m, a, Unsigned(v)), st.vars[a := v];
    ReadWritten(m.dict.mem, a, Unsigned(v));
    forall b | b in vars ensures IsVariable(defs, b) && Holds(n.dict.mem, b, vars[b]) {
      if b != a {
        assert Holds(m.dict.mem, b, st.vars[b]);
        VariablesApart(k, m.dict, words, defs, a, b);
        WriteElsewhere(m.dict.mem, a, Unsigned(v), b, b + 8);
        SameCell(m.dict.mem, n.dict.mem, b);
      }
    }
    PokeOnly(m.dict.mem, a, Unsigned(v), st.vars.Keys);
  }

  lemma PokeOnly(mem: Region, a: nat, v: nat, cells: set<nat>)
    requires InCell(a) && a in cells
    ensures OnlyCells(mem, WriteCell(mem, a, v), cells)
  {
    forall i | 0 <= i < SIZE && !InCells(cells, BASE + i) ensures mem[i] == WriteCell(mem, a, v)[i] {
      assert !(a <= BASE + i < a + 8);
    }
  }

  lemma PrimMeets(k: Link, m: Machine, words: seq<Word>, defs: seq<Def>, st: Store, p: Prim)
    requires Rep(k, m, words, defs, st) && OnStore(p, st).Some?
    ensures RunPrim(p, m).Some? && Rep(k, RunPrim(p, m).value, words, defs, OnStore(p, st).value)
    ensures Ran(m, RunPrim(p, m).value, st.vars.Keys) && OnStore(p, st).value.vars.Keys == st.vars.Keys
    ensures RunPrim(p, m).value.ip == m.ip
  {
    if p.Store? { StoreMeets(k, m, words, defs, st); }
    if p.PlusStore? { PlusMeets(k, m, words, defs, st); }
    if p.Fetch? {
      var a := Unsigned(Top(m.ds));
      assert Holds(m.dict.mem, a, st.vars[a]);
      SignedUnsigned(st.vars[a], 0);
    }
  }

  lemma OtherData(k: Link, m: Machine, words: seq<Word>, defs: seq<Def>, st: Store, s: Data)
    requires Rep(k, m, words, defs, st)
    ensures Rep(k, m.(ds := s), words, defs, st.(ds := s))
  {
  }

  lemma VariableHolds(k: Link, m: Machine, words: seq<Word>, defs: seq<Def>, st: Store, a: nat)
    requires Rep(k, m, words, defs, st) && a in st.vars
    ensures Holds(m.dict.mem, a, st.vars[a])
  {
  }

  lemma SameData(k: Link, m: Machine, words: seq<Word>, defs: seq<Def>, st: Store)
    requires Rep(k, m, words, defs, st)
    ensures m.ds == st.ds
  {
  }

  lemma StoreMeets(k: Link, m: Machine, words: seq<Word>, defs: seq<Def>, st: Store)
    requires Rep(k, m, words, defs, st) && OnStore(Store, st).Some?
    ensures RunPrim(Store, m).Some? && Rep(k, RunPrim(Store, m).value, words, defs, OnStore(Store, st).value)
    ensures Ran(m, RunPrim(Store, m).value, st.vars.Keys) && OnStore(Store, st).value.vars.Keys == st.vars.Keys
    ensures RunPrim(Store, m).value.ip == m.ip
  {
    hide Rep;
    SameData(k, m, words, defs, st);
    var a, v, t: Data := Unsigned(Top(m.ds)), Top(Rest(m.ds)), Rest(Rest(m.ds));
    OtherData(k, m, words, defs, st, t);
    VariableHolds(k, m, words, defs, st, a);
    PokeVariable(k, m.(ds := t), words, defs, st.(ds := t), a, v);
  }

  lemma PlusMeets(k: Link, m: Machine, words: seq<Word>, defs: seq<Def>, st: Store)
    requires Rep(k, m, words, defs, st) && OnStore(PlusStore, st).Some?
    ensures RunPrim(PlusStore, m).Some?
    ensures Rep(k, RunPrim(PlusStore, m).value, words, defs, OnStore(PlusStore, st).value)
    ensures Ran(m, RunPrim(PlusStore, m).value, st.vars.Keys)
    ensures OnStore(PlusStore, st).value.vars.Keys == st.vars.Keys && RunPrim(PlusStore, m).value.ip == m.ip
  {
    hide RunPrim, Apply, Rep;
    SameData(k, m, words, defs, st);
    var a, v, t: Data := Unsigned(Top(m.ds)), Top(Rest(m.ds)), Rest(Rest(m.ds));
    OtherData(k, m, words, defs, st, t);
    VariableHolds(k, m, words, defs, st, a);
    PlusStoreMeets(m, a, st.vars[a], v);
    PokeVariable(k, m.(ds := t), words, defs, st.(ds := t), a, Wrap(st.vars[a] as int + v as int));
  }

  lemma PlusStoreMeets(m: Machine, a: nat, x: I64, v: I64)
    requires Holds(m.dict.mem, a, x) && a == Unsigned(Top(m.ds)) && v == Top(Rest(m.ds))
    ensures RunPrim(PlusStore, m) ==
            Some(Poke(m.(ds := Rest(Rest(m.ds))), a, Unsigned(Wrap(x as int + v as int))))
  {
    AddedCells(x, v);
  }

  // ----- the inner interpreter does what the words mean -----

  /** The instruction pointer is at the o-th cell of word i. */
  ghost predicate At(m: Machine, words: seq<Word>, i: nat, o: nat) {
    i < |words| && o < |words[i].cells| && m.ip == CellAddr(words[i], o)
  }

  lemma CellAt(d: Space, words: seq<Word>, i: nat, o: nat)
    requires Image(d, words) && i < |words| && o < |words[i].cells|
    ensures InCell(CellAddr(words[i], o)) && ReadCell(d.mem, CellAddr(words[i], o)) == words[i].cells[o]
  {
    assert StoredAt(d.mem, words, i) && CellIs(d.mem, words[i], o);
  }

  /** Dispatching on a word's entry. */
  lemma DispatchWord(k: Link, m: Machine, words: seq<Word>, defs: seq<Def>, st: Store, w: nat)
    requires Rep(k, m, words, defs, st) && w < |words|
    ensures BASE <= words[w].addr < LIMIT && CellAddr(words[w], 0) < TWO64
    ensures match defs[w]
            case Native(p) =>
              Dispatch(k, m, words[w].addr) == (match RunPrim(p, m) case None => Off case Some(n) => Did(n))
            case Colon(_) =>
              Dispatch(k, m, words[w].addr) == Entered(m.(rs := Push(m.rs, m.ip), ip := CellAddr(words[w], 0)))
            case Variable(cell) => Dispatch(k, m, words[w].addr) == Did(WithTop(m, Wrap(cell)))
            case Constant(v) => Dispatch(k, m, words[w].addr) == Did(WithTop(m, v))
            case Foreign => true
  {
    hide RunPrim, Push, VarsAre, Grounded, ReadCell;
    assert StoredAt(m.dict.mem, words, w) && Defines(k, words, defs, w);
    Getters(m.dict.mem, words[w], LinkTo(words, w));
    hide CodeField, ParamField, HeaderAt, Stored, Image;
    assert Dispatch(k, m, words[w].addr) == DispatchTo(k, m, words[w].code, CellAddr(words[w], 0));
    if defs[w].Constant? {
      CellAt(m.dict, words, w, 0);
      SignedUnsigned(defs[w].v, 0);
    }
  }

  /** An iteration on a literal pushes the cell after it, whatever its value. */
  lemma IterateLiteral(k: Link, m: Machine, words: seq<Word>, defs: seq<Def>, st: Store, i: nat, o: nat, v: I64)
    requires Rep(k, m, words, defs, st) && At(m, words, i, o) && o + 1 < |words[i].cells|
    requires words[i].cells[o] == k.doLiteral && words[i].cells[o + 1] == Unsigned(v)
    ensures CellAddr(words[i], o + 2) < TWO64
    ensures Iterate(k, m) == Running(WithTop(m.(ip := CellAddr(words[i], o + 2)), v))
  {
    hide VarsAre, Grounded, AllDefined, ReadCell, Push;
    CellAt(m.dict, words, i, o);
    CellAt(m.dict, words, i, o + 1);
    SignedUnsigned(v, 0);
  }

  /** An iteration on an entry dispatches on it. */
  lemma IterateCall(k: Link, m: Machine, words: seq<Word>, defs: seq<Def>, st: Store, i: nat, o: nat, w: nat)
    requires Rep(k, m, words, defs, st) && At(m, words, i, o) && w < |words| && words[i].cells[o] == words[w].addr
    ensures CellAddr(words[i], o + 1) < TWO64
    ensures Iterate(k, m) == match Dispatch(k, m.(ip := CellAddr(words[i], o + 1)), words[w].addr)
                             case Entered(r) => Running(r)
                             case Did(r) => Running(r)
                             case Off => Fault
  {
    CellAt(m.dict, words, i, o);
    assert StoredAt(m.dict.mem, words, w);
  }

  /** The sentinel pops the instruction pointer. */
  lemma IterateExit(k: Link, m: Machine, words: seq<Word>, defs: seq<Def>, st: Store, i: nat, o: nat)
    requires Rep(k, m, words, defs, st) && At(m, words, i, o) && words[i].cells[o] == SENTINEL
    ensures var ip := Peek(m.rs, 0);
            var r := m.(rs := Rest(m.rs), ip := ip);
            Iterate(k, m) == if ip == 0 then Returned(r) else Running(r)
  {
    CellAt(m.dict, words, i, o);
  }

  /** What is left to run at offset o of word i: the items, and then the cells of rest. */
  ghost predicate Ahead(k: Link, words: seq<Word>, i: nat, o: nat, items: seq<Item>, rest: seq<nat>) {
    && i < |words| && o <= |words[i].cells| && CallsBelow(items, |words|) && rest != []
    && words[i].cells[o..] == Code(k, words, items) + rest
  }

  function BodySize(def: Def): nat { if def.Colon? then |def.body| else 0 }

  /** Running items takes Cost iterations, has their meaning, and arrives at the cell behind them with the return
      stack as it was. */
  lemma {:induction false} RunBody(k: Link, m: Machine, words: seq<Word>, defs: seq<Def>, st: Store,
                                   i: nat, o: nat, top: nat, items: seq<Item>, rest: seq<nat>) returns (n: Machine)
    requires Rep(k, m, words, defs, st) && top <= |defs| && CallsBelow(items, top)
    requires At(m, words, i, o) && Ahead(k, words, i, o, items, rest)
    requires Meaning(defs, top, items, st).Some? && |m.rs| + Nesting(defs, top, items) <= STACK_SIZE
    ensures Steps(k, m, Cost(defs, top, items)) == Running(n)
    ensures Rep(k, n, words, defs, Meaning(defs, top, items, st).value) && Ran(m, n, st.vars.Keys)
    ensures Meaning(defs, top, items, st).value.vars.Keys == st.vars.Keys
    ensures |rest| <= |words[i].cells| && At(n, words, i, |words[i].cells| - |rest|)
    ensures words[i].cells[|words[i].cells| - |rest|] == rest[0]
    decreases top, |items|, 1
  {
    hide Iterate, Ran, At, Ahead, CellsOf, Code, MeaningOf, CostOf, NestingOf, Image, VarsAre, AllDefined;
    if items == [] {
      n := m;
      RanNothing(k, m, words, i, o, rest);
    } else {
      var it := items[0];
      assert CallBelow(it, top);
      var s := MeaningOf(defs, top, it, st).value;
      CodeStep(k, words, i, o, items, rest);
      var r := RunItem(k, m, words, defs, st, i, o, top, it);
      n := RunBody(k, r, words, defs, s, i, o + |CellsOf(k, words, it)|, top, items[1..], rest);
      StepsAdd(k, m, CostOf(defs, top, it), Cost(defs, top, items[1..]));
      RanTwice(m, r, n, st.vars.Keys);
    }
  }

  lemma RanNothing(k: Link, m: Machine, words: seq<Word>, i: nat, o: nat, rest: seq<nat>)
    requires At(m, words, i, o) && Ahead(k, words, i, o, [], rest)
    ensures forall cells :: Ran(m, m, cells)
    ensures |rest| <= |words[i].cells| && At(m, words, i, |words[i].cells| - |rest|)
    ensures words[i].cells[|words[i].cells| - |rest|] == rest[0]
  {
  }

  lemma CodeStep(k: Link, words: seq<Word>, i: nat, o: nat, items: seq<Item>, rest: seq<nat>)
    requires Ahead(k, words, i, o, items, rest) && items != []
    ensures CallBelow(items[0], |words|)
    ensures var c := CellsOf(k, words, items[0]);
            && |c| > 0 && o + |c| < |words[i].cells| && words[i].cells[o..o + |c|] == c
            && Ahead(k, words, i, o + |c|, items[1..], rest)
  {
    assert CallBelow(items[0], |words|);
    var c, more := CellsOf(k, words, items[0]), Code(k, words, items[1..]) + rest;
    assert words[i].cells[o..] == c + more;
    var tail := words[i].cells[o..];
    assert tail[..|c|] == c && tail[|c|..] == more;
    assert words[i].cells[o..o + |c|] == tail[..|c|] && words[i].cells[o + |c|..] == tail[|c|..];
  }

  /** The same for one item. */
  lemma {:induction false} RunItem(k: Link, m: Machine, words: seq<Word>, defs: seq<Def>, st: Store,
                                   i: nat, o: nat, top: nat, it: Item) returns (n: Machine)
    requires Rep(k, m, words, defs, st) && top <= |defs| && CallBelow(it, top)
    requires At(m, words, i, o) && o + |CellsOf(k, words, it)| < |words[i].cells|
    requires words[i].cells[o..o + |CellsOf(k, words, it)|] == CellsOf(k, words, it)
    requires MeaningOf(defs, top, it, st).Some? && |m.rs| + NestingOf(defs, top, it) <= STACK_SIZE
    ensures Steps(k, m, CostOf(defs, top, it)) == Running(n)
    ensures Rep(k, n, words, defs, MeaningOf(defs, top, it, st).value) && Ran(m, n, st.vars.Keys)
    ensures MeaningOf(defs, top, it, st).value.vars.Keys == st.vars.Keys
    ensures At(n, words, i, o + |CellsOf(k, words, it)|)
    decreases top, 0, 0
  {
    match it
    case Lit(v) =>
      assert words[i].cells[o..o + 2][0] == k.doLiteral && words[i].cells[o..o + 2][1] == Unsigned(v);
      IterateLiteral(k, m, words, defs, st, i, o, v);
      n := Iterate(k, m).m;
    case Call(w) =>
      assert words[i].cells[o..o + 1][0] == words[w].addr;
      n := RunCall(k, m, words, defs, st, i, o, top, w);
  }

  lemma {:induction false} RunCall(k: Link, m: Machine, words: seq<Word>, defs: seq<Def>, st: Store,
                                   i: nat, o: nat, top: nat, w: nat) returns (n: Machine)
    requires Rep(k, m, words, defs, st) && w < top <= |defs|
    requires At(m, words, i, o) && o + 1 < |words[i].cells| && words[i].cells[o] == words[w].addr
    requires MeaningOf(defs, top, Call(w), st).Some? && |m.rs| + NestingOf(defs, top, Call(w)) <= STACK_SIZE
    ensures Steps(k, m, CostOf(defs, top, Call(w))) == Running(n)
    ensures Rep(k, n, words, defs, MeaningOf(defs, top, Call(w), st).value) && Ran(m, n, st.vars.Keys)
    ensures MeaningOf(defs, top, Call(w), st).value.vars.Keys == st.vars.Keys
    ensures At(n, words, i, o + 1)
    decreases w, BodySize(defs[w]) + 2, 0
  {
    hide RunPrim, Steps;
    OneStep(k, m);
    IterateCall(k, m, words, defs, st, i, o, w);
    var r := m.(ip := CellAddr(words[i], o + 1));
    DispatchWord(k, r, words, defs, st, w);
    if defs[w].Colon? {
      n := RunColon(k, m, words, defs, st, i, o, w);
    } else {
      if defs[w].Native? { PrimMeets(k, r, words, defs, st, defs[w].p); }
      n := Iterate(k, m).m;
    }
  }

  lemma {:induction false} RunColon(k: Link, m: Machine, words: seq<Word>, defs: seq<Def>, st: Store,
                                    i: nat, o: nat, w: nat) returns (n: Machine)
    requires Rep(k, m, words, defs, st) && w < |defs| && defs[w].Colon? && BodyBelow(defs, w)
    requires At(m, words, i, o) && o + 1 < |words[i].cells| && words[i].cells[o] == words[w].addr
    requires Meaning(defs, w, defs[w].body, st).Some?
    requires |m.rs| + 1 + Nesting(defs, w, defs[w].body) <= STACK_SIZE
    ensures Steps(k, m, 2 + Cost(defs, w, defs[w].body)) == Running(n)
    ensures Rep(k, n, words, defs, Meaning(defs, w, defs[w].body, st).value) && Ran(m, n, st.vars.Keys)
    ensures Meaning(defs, w, defs[w].body, st).value.vars.Keys == st.vars.Keys
    ensures At(n, words, i, o + 1)
    decreases w, BodySize(defs[w]) + 1, 0
  {
    hide Iterate, Dispatch;
    var body, c := defs[w].body, Cost(defs, w, defs[w].body);
    IterateCall(k, m, words, defs, st, i, o, w);
    var r := m.(ip := CellAddr(words[i], o + 1));
    DispatchWord(k, r, words, defs, st, w);
    var e := Iterate(k, m).m;
    EntersBody(k, e, words, defs, st, w);
    var b := RunBody(k, e, words, defs, st, w, 0, w, body, [SENTINEL]);
    IterateExit(k, b, words, defs, Meaning(defs, w, body, st).value, w, |words[w].cells| - 1);
    PopPushed(m.rs, r.ip, 0);
    n := b.(rs := m.rs, ip := r.ip);
    assert Iterate(k, b) == Running(n);
    StepsAdd(k, e, c, 1);
    assert Steps(k, b, 1) == Running(n);
  }

  /** A colon word's parameter field starts with its body. */
  lemma EntersBody(k: Link, e: Machine, words: seq<Word>, defs: seq<Def>, st: Store, w: nat)
    requires Rep(k, e, words, defs, st) && w < |defs| && defs[w].Colon? && e.ip == CellAddr(words[w], 0)
    ensures At(e, words, w, 0) && CallsBelow(defs[w].body, w) && Ahead(k, words, w, 0, defs[w].body, [SENTINEL])
  {
    assert Defines(k, words, defs, w);
    assert words[w].cells[0..] == words[w].cells;
  }

  // ----- executing a word from the top -----

  /** The address of a run-time routine is neither an entry nor one of the two cells forth_inner knows. */
  ghost predicate Unrun(k: Link, code: U64) {
    code != SENTINEL && code != k.doLiteral && !(BASE <= code < LIMIT)
  }

  /** Word i starts with these items, and then comes rest. */
  ghost predicate StartsWith(k: Link, words: seq<Word>, i: nat, items: seq<Item>, rest: seq<nat>) {
    && i < |words| && words[i].code == k.doColon && CallsBelow(items, |words|) && rest != []
    && words[i].cells == Code(k, words, items) + rest
  }

  /** Executing a colon word enters it and runs the items it starts with. */
  lemma Enters(k: Link, m: Machine, words: seq<Word>, defs: seq<Def>, st: Store, i: nat,
               top: nat, items: seq<Item>, rest: seq<nat>) returns (n: Machine)
    requires Rep(k, m, words, defs, st) && StartsWith(k, words, i, items, rest)
    requires top <= |defs| && CallsBelow(items, top)
    requires Meaning(defs, top, items, st).Some? && |m.rs| + 1 + Nesting(defs, top, items) <= STACK_SIZE
    ensures BASE <= CellAddr(words[i], 0) < TWO64
    ensures var e := m.(rs := Push(m.rs, m.ip), ip := CellAddr(words[i], 0));
            && Dispatch(k, m, words[i].addr) == Entered(e)
            && Steps(k, e, Cost(defs, top, items)) == Running(n) && Ran(e, n, st.vars.Keys)
    ensures Rep(k, n, words, defs, Meaning(defs, top, items, st).value)
    ensures Meaning(defs, top, items, st).value.vars.Keys == st.vars.Keys
    ensures At(n, words, i, |Code(k, words, items)|) && words[i].cells[|Code(k, words, items)|] == rest[0]
  {
    EntryDispatches(k, m, words, i);
    var e := m.(rs := Push(m.rs, m.ip), ip := CellAddr(words[i], 0));
    assert words[i].cells[0..] == words[i].cells;
    n := RunBody(k, e, words, defs, st, i, 0, top, items, rest);
  }

  lemma EntryDispatches(k: Link, m: Machine, words: seq<Word>, i: nat)
    requires Image(m.dict, words) && i < |words| && words[i].code == k.doColon
    ensures BASE <= CellAddr(words[i], 0) < TWO64
    ensures Dispatch(k, m, words[i].addr) == Entered(m.(rs := Push(m.rs, m.ip), ip := CellAddr(words[i], 0)))
  {
    assert StoredAt(m.dict.mem, words, i);
    Getters(m.dict.mem, words[i], LinkTo(words, i));
  }

  /** An execution that enters e, comes to b in c iterations, and returns with the next one. */
  lemma Ends(k: Link, m: Machine, entry: nat, e: Machine, c: nat, b: Machine, n: Machine, fuel: nat)
    requires Dispatch(k, m, entry) == Entered(e) && Steps(k, e, c) == Running(b) && Iterate(k, b) == Returned(n)
    requires fuel > c
    ensures Execute(k, m, entry, fuel) == Some(n)
  {
    hide Iterate, Dispatch;
    StepsAdd(k, e, c, fuel - c);
    assert Steps(k, b, fuel - c) == Returned(n);
  }

  /** A cell that is no entry, no literal and no sentinel ends the run one cell behind it, with the instruction
      pointer of the caller still on the return stack. */
  lemma StopsInside(k: Link, m: Machine, words: seq<Word>, defs: seq<Def>, st: Store, i: nat,
                    top: nat, items: seq<Item>, rest: seq<nat>, fuel: nat) returns (n: Machine)
    requires Rep(k, m, words, defs, st) && StartsWith(k, words, i, items, rest) && rest[0] < TWO64 && Unrun(k, rest[0])
    requires top <= |defs| && CallsBelow(items, top)
    requires Meaning(defs, top, items, st).Some? && |m.rs| + 1 + Nesting(defs, top, items) <= STACK_SIZE
    requires fuel > Cost(defs, top, items)
    ensures Execute(k, m, words[i].addr, fuel) == Some(n)
    ensures Rep(k, n, words, defs, Meaning(defs, top, items, st).value)
    ensures n.rs == Push(m.rs, m.ip) && n.ip == CellAddr(words[i], |Code(k, words, items)| + 1)
  {
    hide Dispatch, Execute, Steps, Nesting, Meaning;
    var c := Cost(defs, top, items);
    var b := Enters(k, m, words, defs, st, i, top, items, rest);
    var e := m.(rs := Push(m.rs, m.ip), ip := CellAddr(words[i], 0));
    n := IterateUnrun(k, b, words, defs, Meaning(defs, top, items, st).value, i, |Code(k, words, items)|);
    Ends(k, m, words[i].addr, e, c, b, n, fuel);
  }

  lemma IterateUnrun(k: Link, m: Machine, words: seq<Word>, defs: seq<Def>, st: Store, i: nat, o: nat)
    returns (n: Machine)
    requires Rep(k, m, words, defs, st) && At(m, words, i, o) && words[i].cells[o] < TWO64
    requires Unrun(k, words[i].cells[o])
    ensures Iterate(k, m) == Returned(n) && Rep(k, n, words, defs, st) && n.rs == m.rs
    ensures n.ip == CellAddr(words[i], o + 1)
  {
    CellAt(m.dict, words, i, o);
    n := m.(ip := m.ip + 8);
  }

  /** A word that ends in the sentinel returns from the top level with the return stack as it was. */
  lemma RunsToEnd(k: Link, m: Machine, words: seq<Word>, defs: seq<Def>, st: Store, i: nat,
                  top: nat, items: seq<Item>, fuel: nat) returns (n: Machine)
    requires Rep(k, m, words, defs, st) && StartsWith(k, words, i, items, [SENTINEL]) && m.ip == 0
    requires top <= |defs| && CallsBelow(items, top)
    requires Meaning(defs, top, items, st).Some? && |m.rs| + 1 + Nesting(defs, top, items) <= STACK_SIZE
    requires fuel > Cost(defs, top, items)
    ensures Execute(k, m, words[i].addr, fuel) == Some(n)
    ensures Rep(k, n, words, defs, Meaning(defs, top, items, st).value) && Ran(m, n, st.vars.Keys)
    ensures Meaning(defs, top, items, st).value.vars.Keys == st.vars.Keys
    ensures n.rs == m.rs && n.ip == 0
  {
    hide Iterate, Dispatch;
    var c, s := Cost(defs, top, items), Meaning(defs, top, items, st).value;
    var b := Enters(k, m, words, defs, st, i, top, items, [SENTINEL]);
    var e := m.(rs := Push(m.rs, m.ip), ip := CellAddr(words[i], 0));
    IterateExit(k, b, words, defs, s, i, |Code(k, words, items)|);
    PopPushed<U64>(m.rs, 0, 0);
    n := b.(rs := m.rs, ip := 0);
    Ends(k, m, words[i].addr, e, c, b, n, fuel);
  }

  /** From the top level, executing a word of the fragment returns within its unfolded size, has its meaning,
      leaves the return stack as it was and the instruction pointer null. */
  lemma ExecuteMeets(k: Link, m: Machine, words: seq<Word>, defs: seq<Def>, st: Store, w: nat, fuel: nat)
    returns (n: Machine)
    requires Rep(k, m, words, defs, st) && w < |defs| && m.ip == 0
    requires MeaningOf(defs, |defs|, Call(w), st).Some?
    requires |m.rs| + NestingOf(defs, |defs|, Call(w)) <= STACK_SIZE && fuel >= CostOf(defs, |defs|, Call(w))
    ensures Execute(k, m, words[w].addr, fuel) == Some(n)
    ensures Rep(k, n, words, defs, MeaningOf(defs, |defs|, Call(w), st).value) && Ran(m, n, st.vars.Keys)
    ensures MeaningOf(defs, |defs|, Call(w), st).value.vars.Keys == st.vars.Keys
    ensures n.ip == 0
  {
    DispatchWord(k, m, words, defs, st, w);
    if defs[w].Colon? {
      assert Defines(k, words, defs, w) && BodyBelow(defs, w);
      n := RunsToEnd(k, m, words, defs, st, w, w, defs[w].body, fuel);
    } else {
      if defs[w].Native? { PrimMeets(k, m, words, defs, st, defs[w].p); }
      n := Execute(k, m, words[w].addr, fuel).value;
    }
  }
}
