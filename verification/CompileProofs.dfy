/**
  Compiling a word and running it does what interpreting its tokens does, and no definition disturbs
  the words before it.
 */
module CompileProofs {
  import opened Cells
  import opened Dictionary
  import opened Numbers
  import opened Stacks
  import opened ForthWords
  import opened ForthMachine
  import opened ForthCompiler
  import opened Width

  // ----- what tokens stand for -----

  /** The item a token stands for: a visible non-immediate word, or a number. */
  function Resolve(words: seq<Word>, base: nat, tok: Text): Option<Item> {
    var r := Lookup(words, tok);
    if r >= 0 then if Immediate(words[r].flags) then None else Some(Call(r))
    else
      match TryNumber(tok, base)
      case None => None
      case Some(v) => Some(Lit(v))
  }

  ghost predicate ResolvesAt(words: seq<Word>, base: nat, toks: seq<Text>, items: seq<Item>, i: nat)
    requires i < |toks| && i < |items|
  {
    Resolve(words, base, toks[i]) == Some(items[i])
  }

  ghost predicate Resolves(words: seq<Word>, base: nat, toks: seq<Text>, items: seq<Item>) {
    |toks| == |items| && forall i :: 0 <= i < |toks| ==> ResolvesAt(words, base, toks, items, i)
  }

  lemma ResolvesTail(words: seq<Word>, base: nat, toks: seq<Text>, items: seq<Item>)
    requires Resolves(words, base, toks, items) && toks != []
    ensures Resolve(words, base, toks[0]) == Some(items[0]) && CallBelow(items[0], |words|)
    ensures Resolves(words, base, toks[1..], items[1..])
  {
    assert ResolvesAt(words, base, toks, items, 0);
    forall i | 0 <= i < |toks| - 1 ensures ResolvesAt(words, base, toks[1..], items[1..], i) {
      assert ResolvesAt(words, base, toks, items, i + 1);
    }
  }

  lemma ResolvesBelow(words: seq<Word>, base: nat, toks: seq<Text>, items: seq<Item>)
    requires Resolves(words, base, toks, items)
    ensures CallsBelow(items, |words|)
  {
    forall i | 0 <= i < |items| ensures CallBelow(items[i], |words|) {
      assert ResolvesAt(words, base, toks, items, i);
    }
  }

  // ----- lookups while a word is being compiled -----

  lemma {:induction false} LookupPrefix(words: seq<Word>, more: seq<Word>, n: nat, name: Text)
    requires n <= |words|
    ensures LookupIn(words + more, n, name) == LookupIn(words, n, name)
  {
    if n > 0 { LookupPrefix(words, more, n - 1, name); }
  }

  /** A hidden newest word is not found: lookups go to the older words. */
  lemma LookupHidden(words: seq<Word>, w: Word, name: Text)
    requires Hidden(w.flags)
    ensures Lookup(words + [w], name) == Lookup(words, name)
  {
    LookupPrefix(words, [w], |words|, name);
  }

  lemma LookupNewest(words: seq<Word>, w: Word, name: Text)
    requires Answers(w, name)
    ensures Lookup(words + [w], name) == |words|
  {
  }

  /** What dict_find tells the outer interpreter about a token that names word r. */
  lemma FindWord(d: Space, words: seq<Word>, name: Text)
    requires Image(d, words) && Lookup(words, name) >= 0
    ensures var w := words[Lookup(words, name)];
            && Find(d.mem, d.latest, name) == Entry(w.addr) && HeaderAt(d.mem, w.addr)
            && FlagsOf(d.mem, w.addr) == w.flags && CodeField(d.mem, w.addr) == CodeAddr(w)
            && InCell(CodeAddr(w)) && ReadCell(d.mem, CodeAddr(w)) == w.code
            && BASE <= w.addr < LIMIT
  {
    var r := Lookup(words, name);
    FindIsLookup(d, words, name);
    assert StoredAt(d.mem, words, r);
    Getters(d.mem, words[r], LinkTo(words, r));
  }

  // ----- interpreting -----

  /** Interpreting tokens of the fragment has the meaning of their items. */
  lemma {:induction false} Interpreted(k: Link, m: Machine, words: seq<Word>, defs: seq<Def>, st: Store,
                                       toks: seq<Text>, items: seq<Item>, rest: seq<Text>, fuel: nat)
    returns (n: Machine)
    requires Rep(k, m, words, defs, st) && m.mode == Interpret && m.ip == 0
    requires Resolves(words, m.base, toks, items) && CallsBelow(items, |defs|)
    requires Meaning(defs, |defs|, items, st).Some? && |m.rs| + Nesting(defs, |defs|, items) <= STACK_SIZE
    requires fuel >= Cost(defs, |defs|, items)
    ensures Eval(k, m, toks + rest, fuel) == Eval(k, n, rest, fuel)
    ensures Rep(k, n, words, defs, Meaning(defs, |defs|, items, st).value) && Ran(m, n, st.vars.Keys) && n.ip == 0
    ensures Meaning(defs, |defs|, items, st).value.vars.Keys == st.vars.Keys
    decreases |toks|
  {
    hide Step, Image, VarsAre, AllDefined;
    if toks == [] {
      n := m;
      assert toks + rest == rest;
    } else {
      ResolvesTail(words, m.base, toks, items);
      var s := MeaningOf(defs, |defs|, items[0], st).value;
      var r := InterpretedOne(k, m, words, defs, st, toks + rest, items[0], fuel);
      assert (toks + rest)[1..] == toks[1..] + rest;
      n := Interpreted(k, r, words, defs, s, toks[1..], items[1..], rest, fuel);
      RanTwice(m, r, n, st.vars.Keys);
    }
  }

  lemma InterpretedOne(k: Link, m: Machine, words: seq<Word>, defs: seq<Def>, st: Store,
                       toks: seq<Text>, it: Item, fuel: nat) returns (n: Machine)
    requires Rep(k, m, words, defs, st) && m.mode == Interpret && m.ip == 0
    requires toks != [] && Resolve(words, m.base, toks[0]) == Some(it) && CallBelow(it, |defs|)
    requires MeaningOf(defs, |defs|, it, st).Some? && |m.rs| + NestingOf(defs, |defs|, it) <= STACK_SIZE
    requires fuel >= CostOf(defs, |defs|, it)
    ensures Step(k, m, toks, fuel) == (Some(n), toks[1..])
    ensures Rep(k, n, words, defs, MeaningOf(defs, |defs|, it, st).value) && Ran(m, n, st.vars.Keys) && n.ip == 0
    ensures MeaningOf(defs, |defs|, it, st).value.vars.Keys == st.vars.Keys
  {
    hide Execute, Dispatch, Find, RunPrim, TryNumber;
    var tok := toks[0];
    FindIsLookup(m.dict, words, tok);
    if Lookup(words, tok) >= 0 {
      FindWord(m.dict, words, tok);
      assert Defines(k, words, defs, it.w);
      n := ExecuteMeets(k, m, words, defs, st, it.w, fuel);
    } else {
      n := WithTop(m, it.v);
    }
  }

  // ----- compiling -----

  lemma {:induction false} CodeExtends(k: Link, words: seq<Word>, more: seq<Word>, items: seq<Item>)
    requires CallsBelow(items, |words|)
    ensures Code(k, words + more, items) == Code(k, words, items)
  {
    if items != [] {
      assert CallBelow(items[0], |words|);
      CodeExtends(k, words, more, items[1..]);
    }
  }

  /** The word with more cells at its end. */
  function Longer(w: Word, cells: seq<nat>): Word { w.(cells := w.cells + cells) }

  /** From m to n only the dictionary grew, from address `from` on. */
  ghost predicate Grew(m: Machine, n: Machine, from: nat) {
    n.(dict := m.dict) == m && n.dict.latest == m.dict.latest && Same(m.dict.mem, n.dict.mem, BASE, from)
  }

  /** dict_comma while word w is being compiled. */
  lemma CommaMeets(m: Machine, words: seq<Word>, w: Word, v: nat)
    requires Image(m.dict, words + [w]) && w.room == 0 && v < TWO64 && m.dict.here + 8 <= LIMIT
    ensures CommaTo(m, v).Some?
    ensures var n := CommaTo(m, v).value;
            Image(n.dict, words + [Longer(w, [v])]) && Grew(m, n, m.dict.here) && n.dict.here == m.dict.here + 8
  {
    TopAligned(m.dict, words + [w]);
    CommaImage(m.dict, words + [w], v);
    assert Appended(words + [w], v) == words + [Longer(w, [v])];
    WriteElsewhere(m.dict.mem, m.dict.here, v, BASE, m.dict.here);
  }

  lemma CommaTwoMeets(m: Machine, words: seq<Word>, w: Word, u: nat, v: nat)
    requires Image(m.dict, words + [w]) && w.room == 0 && u < TWO64 && v < TWO64 && m.dict.here + 16 <= LIMIT
    ensures CommaTwo(m, u, v).Some?
    ensures var n := CommaTwo(m, u, v).value;
            Image(n.dict, words + [Longer(w, [u, v])]) && Grew(m, n, m.dict.here) && n.dict.here == m.dict.here + 16
  {
    CommaMeets(m, words, w, u);
    var n := CommaTo(m, u).value;
    CommaMeets(n, words, Longer(w, [u]), v);
    assert Longer(Longer(w, [u]), [v]) == Longer(w, [u, v]);
    GrewTwice(m, n, CommaTo(n, v).value, m.dict.here);
  }

  lemma GrewTwice(m: Machine, n: Machine, o: Machine, from: nat)
    requires Grew(m, n, from) && Grew(n, o, n.dict.here) && from <= n.dict.here
    ensures Grew(m, o, from)
  {
    SamePart(n.dict.mem, o.dict.mem, BASE, n.dict.here, BASE, from);
    SameTwice(m.dict.mem, n.dict.mem, o.dict.mem, BASE, from);
  }

  /** One token of a body is compiled to the cells of its item. */
  lemma CompiledOne(k: Link, m: Machine, words: seq<Word>, w: Word, toks: seq<Text>, it: Item, fuel: nat)
    returns (n: Machine)
    requires Image(m.dict, words + [w]) && Hidden(w.flags) && w.room == 0 && m.mode == Compile
    requires toks != [] && Resolve(words, m.base, toks[0]) == Some(it) && CallBelow(it, |words|)
    requires m.dict.here + 8 * |CellsOf(k, words, it)| <= LIMIT
    ensures Step(k, m, toks, fuel) == (Some(n), toks[1..])
    ensures Image(n.dict, words + [Longer(w, CellsOf(k, words, it))]) && Grew(m, n, m.dict.here)
    ensures n.dict.here == m.dict.here + 8 * |CellsOf(k, words, it)|
  {
    hide ExecuteToken, Find, TryNumber;
    var tok, ws := toks[0], words + [w];
    FindIsLookup(m.dict, ws, tok);
    LookupHidden(words, w, tok);
    match it
    case Call(r) =>
      FindWord(m.dict, ws, tok);
      CommaMeets(m, words, w, words[r].addr);
      n := CommaTo(m, words[r].addr).value;
    case Lit(v) =>
      SignedUnsigned(v, 0);
      CommaTwoMeets(m, words, w, k.doLiteral, Unsigned(v));
      n := CommaTwo(m, k.doLiteral, Unsigned(v)).value;
  }

  /** A body's tokens are compiled to the code of their items. */
  lemma {:induction false} CompiledBody(k: Link, m: Machine, words: seq<Word>, w: Word, toks: seq<Text>,
                                        items: seq<Item>, rest: seq<Text>, fuel: nat) returns (n: Machine)
    requires Image(m.dict, words + [w]) && Hidden(w.flags) && w.room == 0 && m.mode == Compile
    requires Resolves(words, m.base, toks, items) && CallsBelow(items, |words|)
    requires m.dict.here + 8 * |Code(k, words, items)| <= LIMIT
    ensures Eval(k, m, toks + rest, fuel) == Eval(k, n, rest, fuel)
    ensures Image(n.dict, words + [Longer(w, Code(k, words, items))]) && Grew(m, n, m.dict.here)
    ensures n.dict.here == m.dict.here + 8 * |Code(k, words, items)|
    decreases |toks|
  {
    hide Step, Image;
    if toks == [] {
      n := m;
      assert toks + rest == rest && Longer(w, []) == w;
    } else {
      ResolvesTail(words, m.base, toks, items);
      assert (toks + rest)[1..] == toks[1..] + rest;
      var c := CellsOf(k, words, items[0]);
      var o := CompiledOne(k, m, words, w, toks + rest, items[0], fuel);
      n := CompiledBody(k, o, words, Longer(w, c), toks[1..], items[1..], rest, fuel);
      assert Longer(Longer(w, c), Code(k, words, items[1..])) == Longer(w, Code(k, words, items));
      GrewTwice(m, o, n, m.dict.here);
    }
  }

  lemma EvalNothing(k: Link, n: Machine, fuel: nat)
    ensures Eval(k, n, [], fuel) == Some(n)
  {
  }

  // ----- definitions -----

  /** The name finds a word with this routine. */
  ghost predicate HasWord(k: Link, words: seq<Word>, name: Text, f: Routine) {
    var r := Lookup(words, name);
    r >= 0 && words[r].code in k.routines && k.routines[words[r].code] == f
  }

  ghost predicate HasImmediate(k: Link, words: seq<Word>, name: Text, f: Routine) {
    HasWord(k, words, name, f) && Immediate(words[Lookup(words, name)].flags)
  }

  /** A token that finds a parsing or compiling word runs it. */
  lemma RunsRoutine(k: Link, m: Machine, words: seq<Word>, toks: seq<Text>, f: Routine, fuel: nat)
    requires Image(m.dict, words) && toks != [] && HasWord(k, words, toks[0], f)
    requires m.mode == Interpret || HasImmediate(k, words, toks[0], f)
    ensures HeaderAt(m.dict.mem, words[Lookup(words, toks[0])].addr)
    ensures RoutineOf(k, m.dict.mem, words[Lookup(words, toks[0])].addr) == Some(f)
    ensures Step(k, m, toks, fuel) == ExecuteToken(k, m, words[Lookup(words, toks[0])].addr, toks[1..], fuel)
  {
    hide ExecuteToken, Find, TryNumber;
    FindWord(m.dict, words, toks[0]);
  }

  lemma LookupKept(k: Link, words: seq<Word>, w: Word, name: Text, f: Routine)
    requires HasImmediate(k, words, name, f) && Hidden(w.flags)
    ensures HasImmediate(k, words + [w], name, f)
  {
    LookupHidden(words, w, name);
  }

  /** Room for a header of this name and so many cells. */
  predicate HasSpace(d: Dictionary.Space, name: Text, cells: nat) {
    HasHeader(d, name) && AlignUp(d.here + 9 + NameLen(name)) + 8 + 8 * cells <= LIMIT
  }

  lemma Entered(m: Machine, words: seq<Word>, name: Text, flags: nat, code: nat)
    requires Image(m.dict, words) && HasHeader(m.dict, name) && code < TWO64
    ensures NewEntry(m, name, flags, code).Some?
    ensures var n := NewEntry(m, name, flags, code).value;
            && Image(n.dict, words + [Fresh(m.dict.here, name, flags, code)]) && n.(dict := m.dict) == m
            && Same(m.dict.mem, n.dict.mem, BASE, m.dict.here) && m.dict.here <= n.dict.here
            && n.dict.here == AlignUp(m.dict.here + 9 + NameLen(name)) + 8
  {
    hide Create;
    CreateImage(m.dict, words, name, flags, code);
    TopAligned(m.dict, words);
    CreateStores(m.dict, name, flags, code);
  }

  /** `:` and a name start a hidden word. */
  lemma Started(k: Link, m: Machine, words: seq<Word>, name: Text, toks: seq<Text>, fuel: nat) returns (n: Machine)
    requires Image(m.dict, words) && m.mode == Interpret && HasWord(k, words, ":", ColonWord)
    requires |toks| >= 2 && toks[0] == ":" && toks[1] == name && HasHeader(m.dict, name)
    ensures Step(k, m, toks, fuel) == (Some(n), toks[2..])
    ensures Image(n.dict, words + [Fresh(m.dict.here, name, F_HIDDEN, k.doColon)])
    ensures n.(dict := m.dict, mode := m.mode) == m && n.mode == Compile
    ensures Same(m.dict.mem, n.dict.mem, BASE, m.dict.here)
    ensures n.dict.here == AlignUp(m.dict.here + 9 + NameLen(name)) + 8
  {
    hide Execute, Find, TryNumber, NewEntry;
    RunsRoutine(k, m, words, toks, ColonWord, fuel);
    Entered(m, words, name, F_HIDDEN, k.doColon);
    n := StartColon(k, m, name).value;
    assert toks[1..][0] == name && toks[1..][1..] == toks[2..];
  }

  /** `;` adds the sentinel and makes the word visible. */
  lemma Finished(k: Link, m: Machine, words: seq<Word>, w: Word, toks: seq<Text>, fuel: nat) returns (n: Machine)
    requires Image(m.dict, words + [w]) && Hidden(w.flags) && w.room == 0 && m.dict.here + 8 <= LIMIT
    requires toks != [] && toks[0] == ";" && HasImmediate(k, words, ";", SemicolonWord)
    ensures Step(k, m, toks, fuel) == (Some(n), toks[1..])
    ensures Image(n.dict, words + [Longer(w, [0xDEAD_C0DE_0000_0000]).(flags := Unhidden(w.flags))])
    ensures n.(dict := m.dict, mode := m.mode) == m && n.mode == Interpret
    ensures w.addr <= m.dict.here && Same(m.dict.mem, n.dict.mem, BASE, w.addr)
  {
    hide Execute, Find, TryNumber, Create, HeadIs, CellsAre, AlignUp;
    var ws := words + [w];
    EntryBelowHere(m.dict, words, w);
    LookupKept(k, words, w, ";", SemicolonWord);
    RunsRoutine(k, m, ws, toks, SemicolonWord, fuel);
    CommaMeets(m, words, w, SENTINEL);
    var o := CommaTo(m, SENTINEL).value;
    var u := Longer(w, [SENTINEL]);
    RevealImage(o.dict, words + [u]);
    assert Unhide(words + [u]) == words + [u.(flags := Unhidden(u.flags))];
    n := FinishColon(m).value;
    SamePart(m.dict.mem, o.dict.mem, BASE, m.dict.here, BASE, w.addr);
    SameTwice(m.dict.mem, o.dict.mem, n.dict.mem, BASE, w.addr);
  }

  lemma EntryBelowHere(d: Dictionary.Space, words: seq<Word>, w: Word)
    requires Image(d, words + [w])
    ensures w.addr <= d.here
  {
  }

  /** The word that `: name items ;` defines at `here`. */
  function Compiled(k: Link, words: seq<Word>, here: nat, name: Text, items: seq<Item>): Word
    requires CallsBelow(items, |words|)
  {
    Word(here, Clip(name), 0, k.doColon, Code(k, words, items) + [SENTINEL], 0)
  }

  /** A new word on top disturbs neither the older definitions nor the store. */
  lemma RepExtends(k: Link, m: Machine, n: Machine, words: seq<Word>, defs: seq<Def>, st: Store, w: Word, def: Def)
    requires Rep(k, m, words, defs, st) && Image(n.dict, words + [w]) && n.ds == m.ds
    requires Same(m.dict.mem, n.dict.mem, BASE, m.dict.here)
    requires Defines(k, words + [w], defs + [def], |words|)
    ensures Rep(k, n, words + [w], defs + [def], st)
  {
    var ws, ds := words + [w], defs + [def];
    forall i | 0 <= i < |ws| ensures Defines(k, ws, ds, i) {
      if i < |words| {
        assert Defines(k, words, defs, i);
        if defs[i].Colon? {
          assert CallsBelow(defs[i].body, |words|);
          CodeExtends(k, words, [w], defs[i].body);
        }
      }
    }
    forall i | 0 <= i < |ds| ensures BodyBelow(ds, i) {
      assert Defines(k, ws, ds, i);
    }
    forall a | a in st.vars ensures IsVariable(ds, a) && Holds(n.dict.mem, a, st.vars[a]) {
      VariableKept(k, m, n, words, defs, st, a, def);
    }
  }

  lemma VariableKept(k: Link, m: Machine, n: Machine, words: seq<Word>, defs: seq<Def>, st: Store, a: nat, def: Def)
    requires Rep(k, m, words, defs, st) && Same(m.dict.mem, n.dict.mem, BASE, m.dict.here) && a in st.vars
    ensures IsVariable(defs + [def], a) && Holds(n.dict.mem, a, st.vars[a]) && a + 8 <= m.dict.here
  {
    assert IsVariable(defs, a) && Holds(m.dict.mem, a, st.vars[a]);
    var i := VariableCell(k, m.dict, words, defs, a);
    var j :| 0 <= j < |defs| && defs[j] == Variable(a);
    assert (defs + [def])[j] == Variable(a);
    InPlace(m.dict, words, i);
    SamePart(m.dict.mem, n.dict.mem, BASE, m.dict.here, a, a + 8);
    SameCell(m.dict.mem, n.dict.mem, a);
  }

  lemma Evaluated(k: Link, m: Machine, toks: seq<Text>, n: Machine, rest: seq<Text>, fuel: nat)
    requires toks != [] && Step(k, m, toks, fuel) == (Some(n), rest)
    ensures Eval(k, m, toks, fuel) == Eval(k, n, rest, fuel)
  {
    hide Step;
  }

  /** `: name tokens ;` defines the word, and changes nothing else. */
  lemma ColonDefines(k: Link, m: Machine, words: seq<Word>, defs: seq<Def>, st: Store, name: Text,
                     toks: seq<Text>, items: seq<Item>, rest: seq<Text>, fuel: nat) returns (n: Machine)
    requires Rep(k, m, words, defs, st) && m.mode == Interpret
    requires HasWord(k, words, ":", ColonWord) && HasImmediate(k, words, ";", SemicolonWord)
    requires Resolves(words, m.base, toks, items) && CallsBelow(items, |words|)
    requires HasSpace(m.dict, name, |Code(k, words, items)| + 1)
    ensures Eval(k, m, [":", name] + toks + [";"] + rest, fuel) == Eval(k, n, rest, fuel)
    ensures Rep(k, n, words + [Compiled(k, words, m.dict.here, name, items)], defs + [Colon(items)], st)
    ensures n.(dict := m.dict) == m && Same(m.dict.mem, n.dict.mem, BASE, m.dict.here)
  {
    hide Step, Find, Image;
    var all := [":", name] + toks + [";"] + rest;
    var o := Started(k, m, words, name, all, fuel);
    assert all[2..] == toks + ([";"] + rest);
    var w := Fresh(m.dict.here, name, F_HIDDEN, k.doColon);
    var q := CompiledBody(k, o, words, w, toks, items, [";"] + rest, fuel);
    var c := Code(k, words, items);
    n := Finished(k, q, words, Longer(w, c), [";"] + rest, fuel);
    assert ([";"] + rest)[1..] == rest;
    assert w.cells + c == c && Longer(Longer(w, c), [SENTINEL]).(flags := 0) == Compiled(k, words, w.addr, name, items);
    SamePart(o.dict.mem, q.dict.mem, BASE, o.dict.here, BASE, m.dict.here);
    SameTwice(m.dict.mem, o.dict.mem, q.dict.mem, BASE, m.dict.here);
    SameTwice(m.dict.mem, q.dict.mem, n.dict.mem, BASE, m.dict.here);
    CodeExtends(k, words, [Compiled(k, words, w.addr, name, items)], items);
    RepExtends(k, m, n, words, defs, st, Compiled(k, words, w.addr, name, items), Colon(items));
  }

  // ----- compiling preserves meaning -----

  /** Runs that start with the same memory below `here` and end with the same store end with the same memory there. */
  lemma MemoryDetermined(k: Link, m: Machine, n: Machine, a: Machine, b: Machine, words: seq<Word>, more: seq<Word>,
                         defs: seq<Def>, more': seq<Def>, st: Store)
    requires Same(m.dict.mem, n.dict.mem, BASE, m.dict.here)
    requires Ran(m, a, st.vars.Keys) && Ran(n, b, st.vars.Keys)
    requires Rep(k, a, words, defs, st) && Rep(k, b, more, more', st)
    ensures Same(a.dict.mem, b.dict.mem, BASE, m.dict.here)
  {
    forall i | 0 <= i < SIZE && BASE <= BASE + i < m.dict.here ensures a.dict.mem[i] == b.dict.mem[i] {
      if InCells(st.vars.Keys, BASE + i) {
        var c :| c in st.vars.Keys && c <= BASE + i < c + 8;
        assert Holds(a.dict.mem, c, st.vars[c]) && Holds(b.dict.mem, c, st.vars[c]);
        CellSame(a.dict.mem, b.dict.mem, c);
      }
    }
  }

  lemma OneCall(defs: seq<Def>, items: seq<Item>, st: Store)
    requires Grounded(defs) && CallsBelow(items, |defs|)
    ensures Grounded(defs + [Colon(items)]) && CallsBelow([Call(|defs|)], |defs| + 1)
    ensures var more, c := defs + [Colon(items)], [Call(|defs|)];
            && Meaning(more, |more|, c, st) == Meaning(defs, |defs|, items, st)
            && Cost(more, |more|, c) == 2 + Cost(defs, |defs|, items)
            && Nesting(more, |more|, c) == 1 + Nesting(defs, |defs|, items)
  {
    var more, c := defs + [Colon(items)], [Call(|defs|)];
    forall i | 0 <= i < |more| ensures BodyBelow(more, i) {
      assert i < |defs| ==> BodyBelow(defs, i);
    }
    assert CallBelow(c[0], |more|) && c[1..] == [];
    MeaningExtends(defs, more, |defs|, items, st);
    CostExtends(defs, more, |defs|, items);
    assert MeaningOf(more, |more|, c[0], st) == Meaning(more, |defs|, items, st);
    if Meaning(more, |defs|, items, st).Some? {
      assert Meaning(more, |more|, [], Meaning(more, |defs|, items, st).value) == Meaning(more, |defs|, items, st);
    }
  }

  /** For every sequence of numbers and visible non-immediate words of the fragment, defining a word with
      that body and running it leaves the same data stack, return stack and memory below the definition as
      interpreting the sequence: also when the name is one the body uses. */
  lemma CompilingPreservesMeaning(k: Link, m: Machine, words: seq<Word>, defs: seq<Def>, st: Store, name: Text,
                                  toks: seq<Text>, items: seq<Item>, fuel: nat)
    returns (direct: Machine, compiled: Machine)
    requires Rep(k, m, words, defs, st) && m.mode == Interpret && m.ip == 0 && |name| <= MAX_NAME
    requires HasWord(k, words, ":", ColonWord) && HasImmediate(k, words, ";", SemicolonWord)
    requires Resolves(words, m.base, toks, items) && CallsBelow(items, |defs|)
    requires Meaning(defs, |defs|, items, st).Some?
    requires |m.rs| + 1 + Nesting(defs, |defs|, items) <= STACK_SIZE
    requires HasSpace(m.dict, name, |Code(k, words, items)| + 1) && fuel >= 2 + Cost(defs, |defs|, items)
    ensures Eval(k, m, toks, fuel) == Some(direct)
    ensures Eval(k, m, [":", name] + toks + [";", name], fuel) == Some(compiled)
    ensures direct.ds == compiled.ds == Meaning(defs, |defs|, items, st).value.ds
    ensures direct.rs == compiled.rs == m.rs && direct.ip == compiled.ip == 0 && compiled.mode == Interpret
    ensures direct.dict.here == m.dict.here && Same(direct.dict.mem, compiled.dict.mem, BASE, m.dict.here)
  {
    hide Step, Eval, Find;
    var w, s := Compiled(k, words, m.dict.here, name, items), Meaning(defs, |defs|, items, st).value;
    direct := Interpreted(k, m, words, defs, st, toks, items, [], fuel);
    EvalNothing(k, direct, fuel);
    assert toks + [] == toks;
    assert [":", name] + toks + [";", name] == [":", name] + toks + [";"] + [name];
    var n := ColonDefines(k, m, words, defs, st, name, toks, items, [name], fuel);
    SmallLen(name);
    assert Answers(w, name);
    LookupNewest(words, w, name);
    OneCall(defs, items, st);
    assert ResolvesAt(words + [w], m.base, [name], [Call(|words|)], 0);
    compiled := Interpreted(k, n, words + [w], defs + [Colon(items)], st, [name], [Call(|words|)], [], fuel);
    EvalNothing(k, compiled, fuel);
    assert [name] + [] == [name];
    MemoryDetermined(k, m, n, direct, compiled, words, words + [w], defs, defs + [Colon(items)], s);
  }

  // ----- a definition that is broken off -----

  /** An unknown word ends the definition: the rest of the line is dropped, the started word stays hidden,
      and every lookup answers as before. */
  lemma AbortKeepsLookups(k: Link, m: Machine, words: seq<Word>, defs: seq<Def>, st: Store, name: Text,
                          toks: seq<Text>, items: seq<Item>, bad: Text, rest: seq<Text>, fuel: nat)
    returns (n: Machine, w: Word)
    requires Rep(k, m, words, defs, st) && m.mode == Interpret && HasWord(k, words, ":", ColonWord)
    requires Resolves(words, m.base, toks, items) && CallsBelow(items, |words|)
    requires Lookup(words, bad) < 0 && TryNumber(bad, m.base) == None
    requires HasSpace(m.dict, name, |Code(k, words, items)| + 1)
    ensures Eval(k, m, [":", name] + toks + [bad] + rest, fuel) == Some(n) && n.(dict := m.dict) == m
    ensures Rep(k, n, words + [w], defs + [Foreign], st) && Hidden(w.flags)
    ensures w == Fresh(m.dict.here, name, F_HIDDEN, k.doColon).(cells := Code(k, words, items))
    ensures n.dict.here + 8 <= LIMIT
    ensures forall x :: Lookup(words + [w], x) == Lookup(words, x)
  {
    hide Image, Eval, Find, TryNumber;
    n, w := BrokenOff(k, m, words, name, toks, items, bad, rest, fuel);
    RepExtends(k, m, n, words, defs, st, w, Foreign);
    forall x ensures Lookup(words + [w], x) == Lookup(words, x) { LookupHidden(words, w, x); }
  }

  /** The line in memory: what was compiled before the unknown word stays, hidden. */
  lemma BrokenOff(k: Link, m: Machine, words: seq<Word>, name: Text, toks: seq<Text>, items: seq<Item>,
                  bad: Text, rest: seq<Text>, fuel: nat) returns (n: Machine, w: Word)
    requires Image(m.dict, words) && m.mode == Interpret && HasWord(k, words, ":", ColonWord)
    requires Resolves(words, m.base, toks, items) && CallsBelow(items, |words|)
    requires Lookup(words, bad) < 0 && TryNumber(bad, m.base) == None
    requires HasSpace(m.dict, name, |Code(k, words, items)| + 1)
    ensures Eval(k, m, [":", name] + toks + [bad] + rest, fuel) == Some(n) && n.(dict := m.dict) == m
    ensures Image(n.dict, words + [w]) && Same(m.dict.mem, n.dict.mem, BASE, m.dict.here)
    ensures w == Fresh(m.dict.here, name, F_HIDDEN, k.doColon).(cells := Code(k, words, items))
    ensures n.dict.here + 8 <= LIMIT
  {
    hide Step, Eval, Find, TryNumber, Image;
    var all := [":", name] + toks + [bad] + rest;
    var o := Started(k, m, words, name, all, fuel);
    assert all[2..] == toks + ([bad] + rest);
    Evaluated(k, m, all, o, all[2..], fuel);
    var f := Fresh(m.dict.here, name, F_HIDDEN, k.doColon);
    var q := CompiledBody(k, o, words, f, toks, items, [bad] + rest, fuel);
    w := Longer(f, Code(k, words, items));
    assert w == f.(cells := Code(k, words, items));
    FindIsLookup(q.dict, words + [w], bad);
    LookupHidden(words, w, bad);
    n := q.(mode := Interpret);
    assert ([bad] + rest)[0] == bad;
    Dropped(k, q, [bad] + rest, fuel);
    SamePart(o.dict.mem, q.dict.mem, BASE, o.dict.here, BASE, m.dict.here);
    SameTwice(m.dict.mem, o.dict.mem, q.dict.mem, BASE, m.dict.here);
  }

  lemma Dropped(k: Link, q: Machine, toks: seq<Text>, fuel: nat)
    requires toks != [] && Find(q.dict.mem, q.dict.latest, toks[0]) == Nothing && TryNumber(toks[0], q.base) == None
    ensures Eval(k, q, toks, fuel) == Some(q.(mode := Interpret))
  {
    hide Find, TryNumber;
    assert Step(k, q, toks, fuel) == (Some(q.(mode := Interpret)), []);
  }

  /** The newest word, not a variable, is replaced by one at the same place. */
  lemma RepReplaced(k: Link, n: Machine, p: Machine, words: seq<Word>, defs: seq<Def>, st: Store,
                    w: Word, u: Word, def: Def)
    requires Rep(k, n, words + [w], defs + [Foreign], st) && Image(p.dict, words + [u]) && p.ds == n.ds
    requires |words| == |defs| && Same(n.dict.mem, p.dict.mem, BASE, w.addr)
    requires Defines(k, words + [u], defs + [def], |words|)
    ensures Rep(k, p, words + [u], defs + [def], st)
  {
    var ws, vs, ds, es := words + [w], words + [u], defs + [Foreign], defs + [def];
    forall i | 0 <= i < |vs| ensures Defines(k, vs, es, i) {
      if i < |words| {
        assert Defines(k, ws, ds, i);
        if defs[i].Colon? {
          CodeExtends(k, words, [w], defs[i].body);
          CodeExtends(k, words, [u], defs[i].body);
        }
      }
    }
    forall i | 0 <= i < |es| ensures BodyBelow(es, i) {
      assert Defines(k, vs, es, i);
    }
    forall a | a in st.vars ensures IsVariable(es, a) && Holds(p.dict.mem, a, st.vars[a]) {
      assert IsVariable(ds, a) && Holds(n.dict.mem, a, st.vars[a]);
      var x :| 0 <= x < |ds| && ds[x] == Variable(a);
      assert es[x] == Variable(a) && Defines(k, ws, ds, x) && Before(ws, x, |words|);
      SamePart(n.dict.mem, p.dict.mem, BASE, w.addr, a, a + 8);
      SameCell(n.dict.mem, p.dict.mem, a);
    }
  }

  /** More tokens for the word being compiled. */
  lemma BodyGrows(k: Link, n: Machine, words: seq<Word>, defs: seq<Def>, st: Store, w: Word,
                  toks: seq<Text>, items: seq<Item>, rest: seq<Text>, fuel: nat) returns (p: Machine)
    requires Rep(k, n, words + [w], defs + [Foreign], st) && |words| == |defs| && n.mode == Compile
    requires Hidden(w.flags) && w.room == 0 && Resolves(words, n.base, toks, items) && CallsBelow(items, |words|)
    requires n.dict.here + 8 * |Code(k, words, items)| <= LIMIT
    ensures Eval(k, n, toks + rest, fuel) == Eval(k, p, rest, fuel) && p.(dict := n.dict) == n
    ensures Rep(k, p, words + [Longer(w, Code(k, words, items))], defs + [Foreign], st)
  {
    hide Eval, Image, Resolves, Code;
    p := CompiledBody(k, n, words, w, toks, items, rest, fuel);
    NewestBelow(n.dict, words, w);
    SamePart(n.dict.mem, p.dict.mem, BASE, n.dict.here, BASE, w.addr);
    RepReplaced(k, n, p, words, defs, st, w, Longer(w, Code(k, words, items)), Foreign);
  }

  lemma NewestBelow(d: Dictionary.Space, words: seq<Word>, w: Word)
    requires Image(d, words + [w])
    ensures BASE <= w.addr <= d.here <= LIMIT
  {
    assert StoredAt(d.mem, words + [w], |words|);
  }

  /** `;` makes the word being compiled visible.  After a line that broke it off, it runs as the tokens before the
      unknown one. */
  lemma SemicolonRevives(k: Link, n: Machine, words: seq<Word>, defs: seq<Def>, st: Store, w: Word,
                         items: seq<Item>, rest: seq<Text>, fuel: nat) returns (p: Machine, u: Word)
    requires Rep(k, n, words + [w], defs + [Foreign], st) && |words| == |defs| && CallsBelow(items, |words|)
    requires Hidden(w.flags) && w.room == 0 && w.code == k.doColon && w.cells == Code(k, words, items)
    requires n.dict.here + 8 <= LIMIT && HasImmediate(k, words, ";", SemicolonWord)
    ensures Eval(k, n, [";"] + rest, fuel) == Eval(k, p, rest, fuel)
    ensures p.(dict := n.dict, mode := n.mode) == n && p.mode == Interpret
    ensures u == Longer(w, [SENTINEL]).(flags := Unhidden(w.flags))
    ensures Rep(k, p, words + [u], defs + [Colon(items)], st)
    ensures forall name :: SameName(w.name, name) ==> Lookup(words + [u], name) == |words|
  {
    hide Step, Image, Find;
    p := Finished(k, n, words, w, [";"] + rest, fuel);
    assert ([";"] + rest)[1..] == rest;
    u := Longer(w, [SENTINEL]).(flags := Unhidden(w.flags));
    CodeExtends(k, words, [u], items);
    RepReplaced(k, n, p, words, defs, st, w, u, Colon(items));
    forall name | SameName(w.name, name) ensures Lookup(words + [u], name) == |words| {
      LookupNewest(words, u, name);
    }
  }

  // ----- variables and constants -----

  /** A cell of the newest word may be given up to the program. */
  lemma GiveRoom(d: Dictionary.Space, words: seq<Word>, w: Word, v: nat)
    requires Image(d, words + [w]) && w.cells == [v] && w.room == 0
    ensures Image(d, words + [w.(cells := [], room := 1)])
  {
    var ws, u := words + [w], w.(cells := [], room := 1);
    assert StoredAt(d.mem, ws, |words|);
    assert CellsAre(d.mem, u);
    ReplaceImage(d, ws, d.mem, |words|, u);
    assert ws[|words| := u] == words + [u];
  }

  /** VARIABLE defines a variable that holds 0. */
  lemma VariableDefines(k: Link, m: Machine, words: seq<Word>, defs: seq<Def>, st: Store, name: Text,
                        toks: seq<Text>, fuel: nat) returns (n: Machine, w: Word)
    requires Rep(k, m, words, defs, st) && m.mode == Interpret && HasSpace(m.dict, name, 1)
    requires |toks| >= 2 && toks[1] == name && HasWord(k, words, toks[0], VariableWord)
    ensures Step(k, m, toks, fuel) == (Some(n), toks[2..])
    ensures w == Fresh(m.dict.here, name, 0, k.doVariable).(room := 1)
    ensures Rep(k, n, words + [w], defs + [Variable(CellAddr(w, 0))], st.(vars := st.vars[CellAddr(w, 0) := 0]))
    ensures n.(dict := m.dict) == m && Same(m.dict.mem, n.dict.mem, BASE, m.dict.here)
  {
    hide Find, Execute, TryNumber, NewVariable, Image;
    RunsRoutine(k, m, words, toks, VariableWord, fuel);
    assert toks[1..][0] == name && toks[1..][1..] == toks[2..];
    n, w := VariableEntered(k, m, words, name);
    RepExtends(k, m, n, words, defs, st, w, Variable(CellAddr(w, 0)));
    NewCell(n, words + [w], defs, st, CellAddr(w, 0));
  }

  lemma VariableEntered(k: Link, m: Machine, words: seq<Word>, name: Text) returns (n: Machine, w: Word)
    requires Image(m.dict, words) && HasSpace(m.dict, name, 1)
    ensures NewVariable(k, m, name) == Some(n) && w == Fresh(m.dict.here, name, 0, k.doVariable).(room := 1)
    ensures Image(n.dict, words + [w]) && InCell(CellAddr(w, 0)) && ReadCell(n.dict.mem, CellAddr(w, 0)) == 0
    ensures n.(dict := m.dict) == m && Same(m.dict.mem, n.dict.mem, BASE, m.dict.here)
  {
    hide NewEntry, CommaTo, Image;
    var f := Fresh(m.dict.here, name, 0, k.doVariable);
    Entered(m, words, name, 0, k.doVariable);
    var o := NewEntry(m, name, 0, k.doVariable).value;
    CommaMeets(o, words, f, 0);
    n := CommaTo(o, 0).value;
    w := f.(room := 1);
    CellAt(n.dict, words + [Longer(f, [0])], |words|, 0);
    GiveRoom(n.dict, words, Longer(f, [0]), 0);
    assert Longer(f, [0]).(cells := [], room := 1) == w;
    SamePart(o.dict.mem, n.dict.mem, BASE, o.dict.here, BASE, m.dict.here);
    SameTwice(m.dict.mem, o.dict.mem, n.dict.mem, BASE, m.dict.here);
  }

  lemma NewCell(n: Machine, words: seq<Word>, defs: seq<Def>, st: Store, a: nat)
    requires InCell(a) && ReadCell(n.dict.mem, a) == 0 && VarsAre(n.dict.mem, defs + [Variable(a)], st.vars)
    ensures VarsAre(n.dict.mem, defs + [Variable(a)], st.vars[a := 0])
  {
    assert (defs + [Variable(a)])[|defs|] == Variable(a);
    assert IsVariable(defs + [Variable(a)], a);
  }

  /** CONSTANT defines the number it takes from the stack. */
  lemma ConstantDefines(k: Link, m: Machine, words: seq<Word>, defs: seq<Def>, st: Store, name: Text,
                        toks: seq<Text>, fuel: nat) returns (n: Machine, w: Word)
    requires Rep(k, m, words, defs, st) && m.mode == Interpret && HasSpace(m.dict, name, 1)
    requires |toks| >= 2 && toks[1] == name && HasWord(k, words, toks[0], ConstantWord)
    ensures Step(k, m, toks, fuel) == (Some(n), toks[2..])
    ensures w == Fresh(m.dict.here, name, 0, k.doConstant).(cells := [Unsigned(ForthWords.Top(m.ds))])
    ensures Rep(k, n, words + [w], defs + [Constant(ForthWords.Top(m.ds))], st.(ds := Rest(m.ds)))
    ensures n.(dict := m.dict, ds := m.ds) == m && Same(m.dict.mem, n.dict.mem, BASE, m.dict.here)
  {
    hide Find, Execute, TryNumber, NewEntry, CommaTo, Image;
    var f, v, s: Data := Fresh(m.dict.here, name, 0, k.doConstant), ForthWords.Top(m.ds), Rest(m.ds);
    RunsRoutine(k, m, words, toks, ConstantWord, fuel);
    assert toks[1..][0] == name && toks[1..][1..] == toks[2..];
    Entered(m, words, name, 0, k.doConstant);
    var o := NewEntry(m, name, 0, k.doConstant).value;
    var q := o.(ds := s);
    SignedUnsigned(v, 0);
    CommaMeets(q, words, f, Unsigned(v));
    n := CommaTo(q, Unsigned(v)).value;
    w := Longer(f, [Unsigned(v)]);
    SamePart(o.dict.mem, n.dict.mem, BASE, o.dict.here, BASE, m.dict.here);
    SameTwice(m.dict.mem, o.dict.mem, n.dict.mem, BASE, m.dict.here);
    OtherData(k, m, words, defs, st, s);
    RepExtends(k, m.(ds := s), n, words, defs, st.(ds := s), w, Constant(v));
  }

  // ----- the words there are at the start -----

  /** The empty dictionary stands for no words. */
  lemma NothingDefined(k: Link, m: Machine)
    requires LinkOk(k) && m.dict.latest == 0 && m.dict.here == BASE
    ensures Rep(k, m, [], [], St(m.ds, map[]))
  {
  }

  /** What a native word's C function means: a primitive's effect, or nothing the fragment speaks of. */
  function NativeDef(k: Link, code: nat): Def {
    if code in k.routines && k.routines[code].Basic? then Native(k.routines[code].p) else Foreign
  }

  /** dict_add_primitive adds a word with the meaning of its C function. */
  lemma PrimitiveDefines(k: Link, m: Machine, words: seq<Word>, defs: seq<Def>, st: Store, name: Text,
                         flags: nat, code: U64) returns (n: Machine)
    requires Rep(k, m, words, defs, st) && HasHeader(m.dict, name)
    ensures NewEntry(m, name, flags, code) == Some(n)
    ensures Rep(k, n, words + [Fresh(m.dict.here, name, flags, code)], defs + [NativeDef(k, code)], st)
    ensures n.(dict := m.dict) == m && Same(m.dict.mem, n.dict.mem, BASE, m.dict.here)
    ensures n.dict.here == AlignUp(m.dict.here + 9 + NameLen(name)) + 8
  {
    hide NewEntry;
    Entered(m, words, name, flags, code);
    n := NewEntry(m, name, flags, code).value;
    RepExtends(k, m, n, words, defs, st, Fresh(m.dict.here, name, flags, code), NativeDef(k, code));
  }

  /** Adding `:` and `;` to any dictionary gives what the theorems above ask of one. */
  lemma CompilerAdded(k: Link, m: Machine, words: seq<Word>, defs: seq<Def>, st: Store, colon: U64, semicolon: U64)
    returns (n: Machine, more: seq<Word>)
    requires Rep(k, m, words, defs, st) && HasHeader(m.dict, ":") && AlignUp(m.dict.here + 10) + 32 <= LIMIT
    requires colon in k.routines && k.routines[colon] == ColonWord
    requires semicolon in k.routines && k.routines[semicolon] == SemicolonWord
    ensures n.(dict := m.dict) == m && |more| == |words| + 2 && words <= more
    ensures Rep(k, n, more, defs + [Foreign, Foreign], st)
    ensures HasWord(k, more, ":", ColonWord) && HasImmediate(k, more, ";", SemicolonWord)
  {
    hide NewEntry, HasSpace;
    var o := PrimitiveDefines(k, m, words, defs, st, ":", 0, colon);
    var w := Fresh(m.dict.here, ":", 0, colon);
    TopAligned(m.dict, words);
    n := PrimitiveDefines(k, o, words + [w], defs + [Foreign], st, ";", F_IMMEDIATE, semicolon);
    var u := Fresh(o.dict.here, ";", F_IMMEDIATE, semicolon);
    more := words + [w] + [u];
    assert defs + [Foreign] + [Foreign] == defs + [Foreign, Foreign];
    CompilerFound(k, words, w, u);
  }

  lemma CompilerFound(k: Link, words: seq<Word>, w: Word, u: Word)
    requires w == Fresh(w.addr, ":", 0, w.code) && u == Fresh(u.addr, ";", F_IMMEDIATE, u.code)
    requires w.code in k.routines && k.routines[w.code] == ColonWord
    requires u.code in k.routines && k.routines[u.code] == SemicolonWord
    ensures HasWord(k, words + [w] + [u], ":", ColonWord) && HasImmediate(k, words + [w] + [u], ";", SemicolonWord)
  {
    OneLetter(":");
    OneLetter(";");
    assert !SameLetter(";", ":", 0);
    LookupNewest(words + [w], u, ";");
    LookupPrefix(words + [w], [u], |words| + 1, ":");
    LookupNewest(words, w, ":");
  }

  lemma OneLetter(name: Text)
    requires |name| == 1
    ensures Clip(name) == name && SameName(Clip(name), name)
  {
    SmallLen(name);
  }
}
