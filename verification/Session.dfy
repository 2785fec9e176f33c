/**
  Whole sessions of the Forth: from the empty dictionary on, whatever is registered, defined over one line or
  many, broken off, revived and run keeps the dictionary standing for words that only call older ones.
 */
module Session {
  import opened Cells
  import opened Dictionary
  import opened Numbers
  import opened Stacks
  import opened ForthWords
  import opened ForthMachine
  import opened ForthCompiler
  import opened CompileProofs
  import opened Width
  import C = ControlFlow

  /** A stretch of a line. */
  datatype Phrase =
    | Straight(toks: seq<Text>)
    | Open(name: Text)
    | Body(toks: seq<Text>)
    | Close
    | NewVariable(word: Text, name: Text)
    | NewConstant(word: Text, name: Text)
    | Controlled(name: Text, block: C.Block)

  /** dict_add_primitive is called, or a line is evaluated: phrases, and then perhaps an unknown word and more. */
  datatype Event =
    | Primitive(name: Text, flags: nat, code: U64)
    | Line(phrases: seq<Phrase>, lost: seq<Text>)

  function PhraseToks(p: Phrase): seq<Text> {
    match p
    case Straight(toks) => toks
    case Open(name) => [":", name]
    case Body(toks) => toks
    case Close => [";"]
    case NewVariable(word, name) => [word, name]
    case NewConstant(word, name) => [word, name]
    case Controlled(name, block) => [C.Colons(), name] + C.Toks(block) + [C.Semicolons()]
  }

  function LineToks(ps: seq<Phrase>, lost: seq<Text>): seq<Text> {
    if ps == [] then lost else PhraseToks(ps[0]) + LineToks(ps[1..], lost)
  }

  /** What the code makes of an event. */
  function After(k: Link, m: Machine, e: Event, fuel: nat): Option<Machine> {
    match e
    case Primitive(name, flags, code) => NewEntry(m, name, flags, code)
    case Line(ps, lost) => Eval(k, m, LineToks(ps, lost), fuel)
  }

  // ----- what a session is about -----

  /** The words there are, what they mean, what the variables hold, the items of the newest word while it is hidden,
      and the compiler's mode and number base. */
  datatype World = World(words: seq<Word>, defs: seq<Def>, st: Store, draft: Option<seq<Item>>, mode: Mode, base: nat)

  const START := World([], [], St([], map[]), None, Interpret, 10)

  /** Compiled words only call older ones, and a word is being compiled only if the newest one is. */
  ghost predicate Sound(k: Link, w: World) {
    && |w.words| == |w.defs| && Grounded(w.defs)
    && match w.draft
       case None => w.mode == Interpret
       case Some(items) =>
         && w.words != [] && Drafted(k, Older(w), w.words[|w.words| - 1], items)
         && w.defs == OlderDefs(w) + [Foreign]
  }

  function Older(w: World): seq<Word>
    requires w.words != []
  {
    w.words[..|w.words| - 1]
  }

  function OlderDefs(w: World): seq<Def>
    requires w.defs != []
  {
    w.defs[..|w.defs| - 1]
  }

  /** The hidden word u holds the code of the items. */
  ghost predicate Drafted(k: Link, words: seq<Word>, u: Word, items: seq<Item>) {
    && Hidden(u.flags) && u.room == 0 && u.code == k.doColon && CallsBelow(items, |words|)
    && u.cells == Code(k, words, items)
  }

  /** The machine stands for the world, and has returned to the top level. */
  ghost predicate Stands(k: Link, m: Machine, w: World) {
    && Rep(k, m, w.words, w.defs, w.st) && Sound(k, w)
    && m.mode == w.mode && m.base == w.base && m.ip == 0 && m.rs == []
  }

  // ----- the items of a phrase -----

  function ItemOf(words: seq<Word>, base: nat, tok: Text): Item {
    match Resolve(words, base, tok)
    case None => Lit(0)
    case Some(it) => it
  }

  function Items(words: seq<Word>, base: nat, toks: seq<Text>): (items: seq<Item>)
    ensures |items| == |toks| && forall i :: 0 <= i < |toks| ==> items[i] == ItemOf(words, base, toks[i])
  {
    seq(|toks|, i requires 0 <= i < |toks| => ItemOf(words, base, toks[i]))
  }

  /** Every token is a number or names a visible non-immediate word. */
  ghost predicate Known(words: seq<Word>, base: nat, toks: seq<Text>) {
    forall i :: 0 <= i < |toks| ==> Resolve(words, base, toks[i]).Some?
  }

  lemma KnownResolves(words: seq<Word>, base: nat, toks: seq<Text>)
    requires Known(words, base, toks)
    ensures Resolves(words, base, toks, Items(words, base, toks)) && CallsBelow(Items(words, base, toks), |words|)
  {
    forall i | 0 <= i < |toks| ensures ResolvesAt(words, base, toks, Items(words, base, toks), i) {
      assert Resolve(words, base, toks[i]).Some?;
    }
    ResolvesBelow(words, base, toks, Items(words, base, toks));
  }

  // ----- phrases within the fragment and the space there is -----

  /** The end of an entry for this name with so many cells. */
  function EntryEnd(words: seq<Word>, name: Text, cells: nat): nat {
    AlignUp(HereOf(words) + 9 + NameLen(name)) + 8 + 8 * cells
  }

  ghost predicate Permitted(k: Link, w: World, p: Phrase, fuel: nat)
    requires Sound(k, w)
  {
    match p
    case Straight(toks) =>
      && w.mode == Interpret && Known(w.words, w.base, toks)
      && (KnownResolves(w.words, w.base, toks); Runs(w, Items(w.words, w.base, toks), fuel))
    case Open(name) =>
      w.mode == Interpret && HasWord(k, w.words, ":", ColonWord) && EntryEnd(w.words, name, 0) <= LIMIT
    case Body(toks) =>
      && w.mode == Compile && Known(Older(w), w.base, toks)
      && HereOf(w.words) + 8 * CodeSize(Items(Older(w), w.base, toks)) <= LIMIT
    case Close =>
      w.draft.Some? && HasImmediate(k, Older(w), ";", SemicolonWord) && HereOf(w.words) + 8 <= LIMIT
    case NewVariable(word, name) =>
      w.mode == Interpret && HasWord(k, w.words, word, VariableWord) && EntryEnd(w.words, name, 1) <= LIMIT
    case NewConstant(word, name) =>
      w.mode == Interpret && HasWord(k, w.words, word, ConstantWord) && EntryEnd(w.words, name, 1) <= LIMIT
    case Controlled(name, block) =>
      && w.mode == Interpret && HasWord(k, w.words, ":", ColonWord) && HasImmediate(k, w.words, ";", SemicolonWord)
      && C.HasControls(k, w.words) && C.Spelled(w.words, w.base, block)
      && EntryEnd(w.words, name, C.Size(block) + 1) <= LIMIT && |w.st.ds| + C.Room(block) <= STACK_SIZE
  }

  /** The items mean something, and the return stack and the iterations suffice. */
  ghost predicate Runs(w: World, items: seq<Item>, fuel: nat)
    requires Grounded(w.defs) && CallsBelow(items, |w.defs|)
  {
    && Meaning(w.defs, |w.defs|, items, w.st).Some?
    && Nesting(w.defs, |w.defs|, items) <= STACK_SIZE && fuel >= Cost(w.defs, |w.defs|, items)
  }

  /** Cells of the compiled items. */
  function CodeSize(items: seq<Item>): nat {
    if items == [] then 0 else (if items[0].Lit? then 2 else 1) + CodeSize(items[1..])
  }

  lemma {:induction false} CodeSizeIs(k: Link, words: seq<Word>, items: seq<Item>)
    requires CallsBelow(items, |words|)
    ensures |Code(k, words, items)| == CodeSize(items)
  {
    if items != [] {
      assert CallBelow(items[0], |words|);
      CodeSizeIs(k, words, items[1..]);
    }
  }

  // ----- what a phrase does to the world -----

  /** One more word on the list. */
  function With(w: World, u: Word, d: Def): World { w.(words := w.words + [u], defs := w.defs + [d], draft := None) }

  /** Another newest word. */
  function Instead(w: World, u: Word, d: Def): World
    requires w.words != [] && w.defs != []
  {
    w.(words := Older(w) + [u], defs := OlderDefs(w) + [d])
  }

  ghost function Next(k: Link, w: World, p: Phrase, fuel: nat): World
    requires Sound(k, w) && Permitted(k, w, p, fuel)
  {
    match p
    case Straight(toks) =>
      KnownResolves(w.words, w.base, toks);
      w.(st := Meaning(w.defs, |w.defs|, Items(w.words, w.base, toks), w.st).value)
    case Open(name) =>
      With(w, Fresh(HereOf(w.words), name, F_HIDDEN, k.doColon), Foreign).(draft := Some([]), mode := Compile)
    case Body(toks) =>
      KnownResolves(Older(w), w.base, toks);
      var items := Items(Older(w), w.base, toks);
      Instead(w, Longer(w.words[|w.words| - 1], Code(k, Older(w), items)), Foreign)
        .(draft := Some(w.draft.value + items))
    case Close =>
      var u := w.words[|w.words| - 1];
      Instead(w, Longer(u, [SENTINEL]).(flags := Unhidden(u.flags)), Colon(w.draft.value))
        .(draft := None, mode := Interpret)
    case NewVariable(_, name) =>
      var u := Fresh(HereOf(w.words), name, 0, k.doVariable).(room := 1);
      With(w, u, Variable(CellAddr(u, 0))).(st := w.st.(vars := w.st.vars[CellAddr(u, 0) := 0]))
    case NewConstant(_, name) =>
      var u := Fresh(HereOf(w.words), name, 0, k.doConstant).(cells := [Unsigned(Top(w.st.ds))]);
      With(w, u, Constant(Top(w.st.ds))).(st := w.st.(ds := Rest(w.st.ds)))
    case Controlled(name, block) =>
      var f := Fresh(HereOf(w.words), name, 0, k.doColon);
      With(w, f.(cells := C.BlockCode(k, w.words, w.base, block, CellAddr(f, 0)) + [SENTINEL]), Foreign)
  }

  lemma GroundedMore(defs: seq<Def>, d: Def)
    requires Grounded(defs) && (d.Colon? ==> CallsBelow(d.body, |defs|))
    ensures Grounded(defs + [d])
  {
    forall i | 0 <= i < |defs + [d]| ensures BodyBelow(defs + [d], i) {
      if i < |defs| { assert BodyBelow(defs, i); }
    }
  }

  /** No phrase makes a compiled word call a newer one. */
  lemma NextSound(k: Link, w: World, p: Phrase, fuel: nat)
    requires Sound(k, w) && Permitted(k, w, p, fuel)
    ensures Sound(k, Next(k, w, p, fuel))
  {
    hide CallsBelow, Resolve, Known, HasWord, HasImmediate, Hidden, EntryEnd;
    var v := Next(k, w, p, fuel);
    match p
    case Straight(_) =>
    case Open(name) =>
      GroundedMore(w.defs, Foreign);
      HiddenFlag();
      assert Older(v) == w.words && OlderDefs(v) == w.defs;
      NothingBelow(|w.words|);
    case Body(toks) =>
      OlderGrounded(w.defs);
      GroundedMore(OlderDefs(w), Foreign);
      KnownResolves(Older(w), w.base, toks);
      CodeTwice(k, Older(w), w.draft.value, Items(Older(w), w.base, toks));
      assert Older(v) == Older(w) && OlderDefs(v) == OlderDefs(w);
    case Close =>
      OlderGrounded(w.defs);
      GroundedMore(OlderDefs(w), Colon(w.draft.value));
    case NewVariable(_, _) => GroundedMore(w.defs, v.defs[|w.defs|]);
    case NewConstant(_, _) => GroundedMore(w.defs, v.defs[|w.defs|]);
    case Controlled(_, _) => GroundedMore(w.defs, Foreign);
  }

  lemma NothingBelow(n: nat)
    ensures CallsBelow([], n)
  {
  }

  lemma OlderGrounded(defs: seq<Def>)
    requires Grounded(defs) && defs != []
    ensures Grounded(defs[..|defs| - 1])
  {
    var older := defs[..|defs| - 1];
    forall i | 0 <= i < |older| ensures BodyBelow(older, i) { assert BodyBelow(defs, i); }
  }

  // ----- every permitted phrase is carried out -----

  /** HERE is the end of the newest word, at a cell boundary. */
  lemma HereIs(k: Link, m: Machine, w: World)
    requires Stands(k, m, w)
    ensures m.dict.here == HereOf(w.words) <= LIMIT && BASE <= m.dict.here && AlignUp(m.dict.here) == m.dict.here
    ensures forall name: Text, cells: nat ::
      EntryEnd(w.words, name, cells) <= LIMIT ==> HasSpace(m.dict, name, cells) && HasHeader(m.dict, name)
  {
    hide AlignUp, StoredAt;
    TopAligned(m.dict, w.words);
  }

  lemma StraightStands(k: Link, m: Machine, w: World, p: Phrase, rest: seq<Text>, fuel: nat) returns (n: Machine)
    requires Stands(k, m, w) && Permitted(k, w, p, fuel) && p.Straight?
    ensures Eval(k, m, PhraseToks(p) + rest, fuel) == Eval(k, n, rest, fuel) && Stands(k, n, Next(k, w, p, fuel))
  {
    hide Eval, Resolve, Drafted;
    KnownResolves(w.words, w.base, p.toks);
    n := Interpreted(k, m, w.words, w.defs, w.st, p.toks, Items(w.words, w.base, p.toks), rest, fuel);
  }

  lemma OpenStands(k: Link, m: Machine, w: World, p: Phrase, rest: seq<Text>, fuel: nat) returns (n: Machine)
    requires Stands(k, m, w) && Permitted(k, w, p, fuel) && p.Open?
    ensures Eval(k, m, PhraseToks(p) + rest, fuel) == Eval(k, n, rest, fuel) && Stands(k, n, Next(k, w, p, fuel))
  {
    hide Eval, Step, HasWord, Image, AlignUp, EntryEnd, AllDefined, VarsAre, Grounded, Create, Resolve, Known;
    HereIs(k, m, w);
    var all := PhraseToks(p) + rest;
    n := Started(k, m, w.words, p.name, all, fuel);
    assert all[2..] == rest;
    Evaluated(k, m, all, n, rest, fuel);
    var u := Fresh(m.dict.here, p.name, F_HIDDEN, k.doColon);
    RepExtends(k, m, n, w.words, w.defs, w.st, u, Foreign);
    HiddenFlag();
    var v := Next(k, w, p, fuel);
    assert Older(v) == w.words && OlderDefs(v) == w.defs;
  }

  lemma HiddenFlag()
    ensures Hidden(TopBits(F_HIDDEN))
  {
  }

  lemma BodyStands(k: Link, m: Machine, w: World, p: Phrase, rest: seq<Text>, fuel: nat) returns (n: Machine)
    requires Stands(k, m, w) && Permitted(k, w, p, fuel) && p.Body?
    ensures Eval(k, m, PhraseToks(p) + rest, fuel) == Eval(k, n, rest, fuel) && Stands(k, n, Next(k, w, p, fuel))
  {
    hide Eval, Rep, Resolve, Hidden;
    HereIs(k, m, w);
    var words, defs, u := Older(w), OlderDefs(w), w.words[|w.words| - 1];
    assert w.words == words + [u];
    var items := Items(words, w.base, p.toks);
    KnownResolves(words, w.base, p.toks);
    CodeSizeIs(k, words, items);
    n := BodyGrows(k, m, words, defs, w.st, u, p.toks, items, rest, fuel);
    CodeTwice(k, words, w.draft.value, items);
    RepSound(k, n, Next(k, w, p, fuel));
  }

  lemma {:induction false} CodeTwice(k: Link, words: seq<Word>, items: seq<Item>, more: seq<Item>)
    requires CallsBelow(items, |words|) && CallsBelow(more, |words|)
    ensures CallsBelow(items + more, |words|)
    ensures Code(k, words, items + more) == Code(k, words, items) + Code(k, words, more)
  {
    forall x | 0 <= x < |items + more| ensures CallBelow((items + more)[x], |words|) {
      if x < |items| { assert CallBelow(items[x], |words|); } else { assert CallBelow(more[x - |items|], |words|); }
    }
    if items == [] {
      assert items + more == more;
    } else {
      assert (items + more)[1..] == items[1..] + more;
      CodeTwice(k, words, items[1..], more);
    }
  }

  lemma RepSound(k: Link, m: Machine, w: World)
    requires Rep(k, m, w.words, w.defs, w.st)
    ensures |w.words| == |w.defs| && Grounded(w.defs)
  {
  }

  lemma CloseStands(k: Link, m: Machine, w: World, p: Phrase, rest: seq<Text>, fuel: nat) returns (n: Machine)
    requires Stands(k, m, w) && Permitted(k, w, p, fuel) && p.Close?
    ensures Eval(k, m, PhraseToks(p) + rest, fuel) == Eval(k, n, rest, fuel) && Stands(k, n, Next(k, w, p, fuel))
  {
    hide Eval, Rep, HasImmediate, Hidden;
    HereIs(k, m, w);
    var words, u := Older(w), w.words[|w.words| - 1];
    assert w.words == words + [u];
    var v;
    n, v := SemicolonRevives(k, m, words, OlderDefs(w), w.st, u, w.draft.value, rest, fuel);
    RepSound(k, n, Next(k, w, p, fuel));
  }

  lemma VariableStands(k: Link, m: Machine, w: World, p: Phrase, rest: seq<Text>, fuel: nat) returns (n: Machine)
    requires Stands(k, m, w) && Permitted(k, w, p, fuel) && p.NewVariable?
    ensures Eval(k, m, PhraseToks(p) + rest, fuel) == Eval(k, n, rest, fuel) && Stands(k, n, Next(k, w, p, fuel))
  {
    hide Eval, Rep, HasWord, Step, EntryEnd, AlignUp;
    HereIs(k, m, w);
    var all := PhraseToks(p) + rest;
    var u;
    n, u := VariableDefines(k, m, w.words, w.defs, w.st, p.name, all, fuel);
    assert all[2..] == rest;
    Evaluated(k, m, all, n, rest, fuel);
    RepSound(k, n, Next(k, w, p, fuel));
  }

  lemma ConstantStands(k: Link, m: Machine, w: World, p: Phrase, rest: seq<Text>, fuel: nat) returns (n: Machine)
    requires Stands(k, m, w) && Permitted(k, w, p, fuel) && p.NewConstant?
    ensures Eval(k, m, PhraseToks(p) + rest, fuel) == Eval(k, n, rest, fuel) && Stands(k, n, Next(k, w, p, fuel))
  {
    hide Eval, HasWord, Step, EntryEnd, AlignUp, Image, VarsAre, AllDefined;
    HereIs(k, m, w);
    var all := PhraseToks(p) + rest;
    var u;
    n, u := ConstantDefines(k, m, w.words, w.defs, w.st, p.name, all, fuel);
    assert all[2..] == rest;
    Evaluated(k, m, all, n, rest, fuel);
  }

  lemma ControlledStands(k: Link, m: Machine, w: World, p: Phrase, rest: seq<Text>, fuel: nat) returns (n: Machine)
    requires Stands(k, m, w) && Permitted(k, w, p, fuel) && p.Controlled?
    ensures Eval(k, m, PhraseToks(p) + rest, fuel) == Eval(k, n, rest, fuel) && Stands(k, n, Next(k, w, p, fuel))
  {
    hide Eval, HasWord, HasImmediate, Step, EntryEnd, AlignUp, Image, VarsAre;
    HereIs(k, m, w);
    n := C.ControlDefines(k, m, w.words, p.name, p.block, rest, fuel);
    var v := Next(k, w, p, fuel);
    RepExtends(k, m, n, w.words, w.defs, w.st, v.words[|w.words|], Foreign);
  }

  lemma PhraseStands(k: Link, m: Machine, w: World, p: Phrase, rest: seq<Text>, fuel: nat) returns (n: Machine)
    requires Stands(k, m, w) && Permitted(k, w, p, fuel)
    ensures Eval(k, m, PhraseToks(p) + rest, fuel) == Eval(k, n, rest, fuel) && Stands(k, n, Next(k, w, p, fuel))
  {
    hide Eval, Stands, Permitted, Next, PhraseToks;
    match p
    case Straight(_) => n := StraightStands(k, m, w, p, rest, fuel);
    case Open(_) => n := OpenStands(k, m, w, p, rest, fuel);
    case Body(_) => n := BodyStands(k, m, w, p, rest, fuel);
    case Close => n := CloseStands(k, m, w, p, rest, fuel);
    case NewVariable(_, _) => n := VariableStands(k, m, w, p, rest, fuel);
    case NewConstant(_, _) => n := ConstantStands(k, m, w, p, rest, fuel);
    case Controlled(_, _) => n := ControlledStands(k, m, w, p, rest, fuel);
  }

  // ----- whole sessions -----

  /** The tokens after the phrases, if any, begin with neither a word nor a number. */
  predicate Stray(w: World, lost: seq<Text>) {
    lost != [] ==> Lookup(w.words, lost[0]) < 0 && TryNumber(lost[0], w.base) == None
  }

  ghost predicate LinePermitted(k: Link, w: World, ps: seq<Phrase>, lost: seq<Text>, fuel: nat)
    requires Sound(k, w)
    decreases |ps|
  {
    if ps == [] then Stray(w, lost)
    else
      && Permitted(k, w, ps[0], fuel)
      && (NextSound(k, w, ps[0], fuel); LinePermitted(k, Next(k, w, ps[0], fuel), ps[1..], lost, fuel))
  }

  ghost function LineNext(k: Link, w: World, ps: seq<Phrase>, lost: seq<Text>, fuel: nat): (v: World)
    requires Sound(k, w) && LinePermitted(k, w, ps, lost, fuel)
    ensures Sound(k, v)
    decreases |ps|
  {
    if ps == [] then if lost == [] then w else w.(mode := Interpret)
    else
      NextSound(k, w, ps[0], fuel);
      LineNext(k, Next(k, w, ps[0], fuel), ps[1..], lost, fuel)
  }

  ghost predicate Possible(k: Link, w: World, e: Event, fuel: nat)
    requires Sound(k, w)
  {
    match e
    case Primitive(name, _, _) => w.mode == Interpret && EntryEnd(w.words, name, 0) <= LIMIT
    case Line(ps, lost) => LinePermitted(k, w, ps, lost, fuel)
  }

  ghost function EventNext(k: Link, w: World, e: Event, fuel: nat): (v: World)
    requires Sound(k, w) && Possible(k, w, e, fuel)
    ensures Sound(k, v)
  {
    match e
    case Primitive(name, flags, code) =>
      GroundedMore(w.defs, NativeDef(k, code));
      With(w, Fresh(HereOf(w.words), name, flags, code), NativeDef(k, code))
    case Line(ps, lost) => LineNext(k, w, ps, lost, fuel)
  }

  /** Each event is possible in the world the events before it have made. */
  ghost predicate AllPossible(k: Link, w: World, es: seq<Event>, fuel: nat)
    requires Sound(k, w)
    decreases |es|
  {
    es != [] ==> Possible(k, w, es[0], fuel) && AllPossible(k, EventNext(k, w, es[0], fuel), es[1..], fuel)
  }

  ghost function AllNext(k: Link, w: World, es: seq<Event>, fuel: nat): (v: World)
    requires Sound(k, w) && AllPossible(k, w, es, fuel)
    ensures Sound(k, v)
    decreases |es|
  {
    if es == [] then w else AllNext(k, EventNext(k, w, es[0], fuel), es[1..], fuel)
  }

  function AfterAll(k: Link, m: Machine, es: seq<Event>, fuel: nat): Option<Machine>
    decreases |es|
  {
    if es == [] then Some(m)
    else
      match After(k, m, es[0], fuel)
      case None => None
      case Some(n) => AfterAll(k, n, es[1..], fuel)
  }

  lemma StrayStands(k: Link, m: Machine, w: World, lost: seq<Text>, fuel: nat) returns (n: Machine)
    requires Stands(k, m, w) && Stray(w, lost)
    ensures Eval(k, m, lost, fuel) == Some(n) && Stands(k, n, LineNext(k, w, [], lost, fuel))
  {
    hide Eval, Drafted, VarsAre, AllDefined, Grounded, TryNumber;
    if lost == [] {
      n := m;
      EvalNothing(k, m, fuel);
    } else {
      n := m.(mode := Interpret);
      FindIsLookup(m.dict, w.words, lost[0]);
      Dropped(k, m, lost, fuel);
    }
  }

  lemma {:induction false} LineStands(k: Link, m: Machine, w: World, ps: seq<Phrase>, lost: seq<Text>, fuel: nat)
    returns (n: Machine)
    requires Stands(k, m, w) && LinePermitted(k, w, ps, lost, fuel)
    ensures Eval(k, m, LineToks(ps, lost), fuel) == Some(n) && Stands(k, n, LineNext(k, w, ps, lost, fuel))
    decreases |ps|
  {
    hide Eval, Rep, Permitted, Next, PhraseToks, Drafted;
    if ps == [] {
      n := StrayStands(k, m, w, lost, fuel);
    } else {
      var o := PhraseStands(k, m, w, ps[0], LineToks(ps[1..], lost), fuel);
      n := LineStands(k, o, Next(k, w, ps[0], fuel), ps[1..], lost, fuel);
    }
  }

  lemma PrimitiveStands(k: Link, m: Machine, w: World, e: Event, fuel: nat) returns (n: Machine)
    requires Stands(k, m, w) && Possible(k, w, e, fuel) && e.Primitive?
    ensures After(k, m, e, fuel) == Some(n) && Stands(k, n, EventNext(k, w, e, fuel))
  {
    hide NewEntry, Rep, EntryEnd, AlignUp;
    HereIs(k, m, w);
    n := PrimitiveDefines(k, m, w.words, w.defs, w.st, e.name, e.flags, e.code);
    RepSound(k, n, EventNext(k, w, e, fuel));
  }

  /** Every possible event is carried out, and leaves the machine standing for the next world. */
  lemma EventStands(k: Link, m: Machine, w: World, e: Event, fuel: nat) returns (n: Machine)
    requires Stands(k, m, w) && Possible(k, w, e, fuel)
    ensures After(k, m, e, fuel) == Some(n) && Stands(k, n, EventNext(k, w, e, fuel))
  {
    match e
    case Primitive(_, _, _) => n := PrimitiveStands(k, m, w, e, fuel);
    case Line(ps, lost) => n := LineStands(k, m, w, ps, lost, fuel);
  }

  lemma {:induction false} SessionStands(k: Link, m: Machine, w: World, es: seq<Event>, fuel: nat) returns (n: Machine)
    requires Stands(k, m, w) && AllPossible(k, w, es, fuel)
    ensures AfterAll(k, m, es, fuel) == Some(n) && Stands(k, n, AllNext(k, w, es, fuel))
    decreases |es|
  {
    hide Rep, Possible, EventNext, After, Drafted;
    if es == [] {
      n := m;
    } else {
      var o := EventStands(k, m, w, es[0], fuel);
      n := SessionStands(k, o, EventNext(k, w, es[0], fuel), es[1..], fuel);
    }
  }

  /** The machine that forth_init sets up stands for no words at all. */
  lemma StartStands(k: Link)
    requires LinkOk(k)
    ensures Stands(k, StartMachine(), START)
  {
    NothingDefined(k, StartMachine());
  }

  /** Executed now, word i does what it means and returns within its unfolded size, if it means something and its
      calls are not nested too deeply for the return stack. */
  ghost predicate Terminates(k: Link, m: Machine, w: World, i: nat)
    requires Sound(k, w) && i < |w.defs|
  {
    var d := w.defs;
    MeaningOf(d, |d|, Call(i), w.st).Some? && NestingOf(d, |d|, Call(i)) <= STACK_SIZE ==>
      var r := Execute(k, m, w.words[i].addr, CostOf(d, |d|, Call(i)));
      r.Some? && Stands(k, r.value, w.(st := MeaningOf(d, |d|, Call(i), w.st).value))
  }

  lemma WordReturns(k: Link, m: Machine, w: World, i: nat)
    requires Stands(k, m, w) && i < |w.defs|
    ensures Terminates(k, m, w, i)
  {
    hide Execute, Drafted;
    var d := w.defs;
    if MeaningOf(d, |d|, Call(i), w.st).Some? && NestingOf(d, |d|, Call(i)) <= STACK_SIZE {
      var n := ExecuteMeets(k, m, w.words, d, w.st, i, CostOf(d, |d|, Call(i)));
    }
  }

  /** In every session from the empty dictionary, registering primitives included, each event is carried out, the
      return stack is empty between events, and compiled words call only older words: so every word of the fragment
      that is then executed terminates within its unfolded size, with its meaning. */
  lemma SessionTerminates(k: Link, es: seq<Event>, fuel: nat) returns (n: Machine)
    requires LinkOk(k) && AllPossible(k, START, es, fuel)
    ensures var w := AllNext(k, START, es, fuel);
            && AfterAll(k, StartMachine(), es, fuel) == Some(n) && Stands(k, n, w)
            && forall i :: 0 <= i < |w.defs| ==> Terminates(k, n, w, i)
  {
    hide AllPossible, AllNext, AfterAll;
    StartStands(k);
    n := SessionStands(k, StartMachine(), START, es, fuel);
    var w := AllNext(k, START, es, fuel);
    forall i | 0 <= i < |w.defs| ensures Terminates(k, n, w, i) { WordReturns(k, n, w, i); }
  }

  // ----- a session begins with the primitives -----

  /** register_primitives, as the first events of a session. */
  function Registrations(table: seq<Registration>): seq<Event>
    decreases |table|
  {
    if table == [] then [] else [Primitive(table[0].name, table[0].flags, table[0].code)] + Registrations(table[1..])
  }

  lemma {:induction false} RegisterIsSession(k: Link, m: Machine, table: seq<Registration>, fuel: nat)
    ensures AfterAll(k, m, Registrations(table), fuel) == Register(m, table)
    decreases |table|
  {
    hide NewEntry;
    if table != [] {
      var es := Registrations(table);
      assert es[1..] == Registrations(table[1..]);
      match NewEntry(m, table[0].name, table[0].flags, table[0].code)
      case None =>
      case Some(n) => RegisterIsSession(k, n, table[1..], fuel);
    }
  }

  /** HERE after the entries of the table. */
  function TableEnd(here: nat, table: seq<Registration>): (e: nat)
    ensures e >= here
    decreases |table|
  {
    if table == [] then here else TableEnd(AlignUp(here + 9 + NameLen(table[0].name)) + 8, table[1..])
  }

  function TableWords(here: nat, table: seq<Registration>): (ws: seq<Word>)
    ensures |ws| == |table|
    ensures forall i :: 0 <= i < |ws| ==>
      ws[i].name == Clip(table[i].name) && ws[i].flags == TopBits(table[i].flags) && ws[i].code == table[i].code
    decreases |table|
  {
    if table == [] then []
    else
      var w := Fresh(here, table[0].name, table[0].flags, table[0].code);
      [w] + TableWords(End(w), table[1..])
  }

  function TableDefs(k: Link, table: seq<Registration>): seq<Def> {
    seq(|table|, i requires 0 <= i < |table| => NativeDef(k, table[i].code))
  }

  /** Registering a table is possible exactly when its entries fit, and puts its words on the list. */
  lemma {:induction false} TablePossible(k: Link, w: World, table: seq<Registration>, fuel: nat)
    requires Sound(k, w) && w.mode == Interpret && w.draft == None && HereOf(w.words) <= LIMIT
    ensures AllPossible(k, w, Registrations(table), fuel) <==> TableEnd(HereOf(w.words), table) <= LIMIT
    ensures AllPossible(k, w, Registrations(table), fuel) ==>
              AllNext(k, w, Registrations(table), fuel) ==
              w.(words := w.words + TableWords(HereOf(w.words), table), defs := w.defs + TableDefs(k, table))
    decreases |table|
  {
    hide AlignUp, NativeDef, Grounded, Sound, Fresh, TableWords, TableDefs;
    var es := Registrations(table);
    if table == [] {
      NoTable(k, w);
    } else {
      assert es[1..] == Registrations(table[1..]);
      if Possible(k, w, es[0], fuel) {
        FirstEntry(k, w, table);
        TablePossible(k, EventNext(k, w, es[0], fuel), table[1..], fuel);
      }
    }
  }

  lemma NoTable(k: Link, w: World)
    ensures w.words + TableWords(HereOf(w.words), []) == w.words && w.defs + TableDefs(k, []) == w.defs
  {
  }

  lemma FirstEntry(k: Link, w: World, table: seq<Registration>)
    requires table != []
    ensures var u := Fresh(HereOf(w.words), table[0].name, table[0].flags, table[0].code);
            var v := With(w, u, NativeDef(k, table[0].code));
            && HereOf(v.words) == EntryEnd(w.words, table[0].name, 0)
            && w.words + TableWords(HereOf(w.words), table) == v.words + TableWords(HereOf(v.words), table[1..])
            && w.defs + TableDefs(k, table) == v.defs + TableDefs(k, table[1..])
  {
    hide NativeDef, AlignUp, Clip, NameLen, TopBits, TableWords, TableDefs, Grounded;
    var u, d := Fresh(HereOf(w.words), table[0].name, table[0].flags, table[0].code), NativeDef(k, table[0].code);
    FirstWord(HereOf(w.words), table);
    FirstDef(k, table);
    assert w.words + ([u] + TableWords(End(u), table[1..])) == (w.words + [u]) + TableWords(End(u), table[1..]);
    assert w.defs + ([d] + TableDefs(k, table[1..])) == (w.defs + [d]) + TableDefs(k, table[1..]);
  }

  lemma FirstWord(here: nat, table: seq<Registration>)
    requires table != []
    ensures var u := Fresh(here, table[0].name, table[0].flags, table[0].code);
            TableWords(here, table) == [u] + TableWords(End(u), table[1..])
  {
  }

  lemma FirstDef(k: Link, table: seq<Registration>)
    requires table != []
    ensures TableDefs(k, table) == [NativeDef(k, table[0].code)] + TableDefs(k, table[1..])
  {
  }

  /** The entry answers to the name. */
  predicate Matching(e: Registration, name: Text) { !Hidden(TopBits(e.flags)) && SameName(Clip(e.name), name) }

  /** The last of the first n entries that answers to the name, or -1. */
  function LastEntry(table: seq<Registration>, n: nat, name: Text): (r: int)
    requires n <= |table|
    ensures -1 <= r < n && (r >= 0 ==> Matching(table[r], name))
    ensures forall i :: r < i < n ==> !Matching(table[i], name)
  {
    if n == 0 then -1 else if Matching(table[n - 1], name) then n - 1 else LastEntry(table, n - 1, name)
  }

  lemma {:induction false} TableLookup(here: nat, table: seq<Registration>, n: nat, name: Text)
    requires n <= |table|
    ensures LookupIn(TableWords(here, table), n, name) == LastEntry(table, n, name)
  {
    hide Clip, SameName, Hidden, TopBits, TableWords;
    if n > 0 { TableLookup(here, table, n - 1, name); }
  }

  /** The world after register_primitives. */
  ghost function TableWorld(k: Link, table: seq<Registration>): (w: World)
    ensures Sound(k, w)
  {
    World(TableWords(BASE, table), TableDefs(k, table), St([], map[]), None, Interpret, 10)
  }

  lemma TableNext(k: Link, table: seq<Registration>, fuel: nat)
    requires TableEnd(BASE, table) <= LIMIT
    ensures AllPossible(k, START, Registrations(table), fuel)
    ensures AllNext(k, START, Registrations(table), fuel) == TableWorld(k, table)
  {
    hide AllPossible, AllNext, Registrations, TableWords, TableDefs, TableEnd;
    TablePossible(k, START, table, fuel);
    assert [] + TableWords(BASE, table) == TableWords(BASE, table) && [] + TableDefs(k, table) == TableDefs(k, table);
  }

  /** After forth_init, for every table that fits: the machine stands for the table's words, and each name finds
      the last entry that answers to it. */
  lemma Initialised(k: Link, table: seq<Registration>) returns (n: Machine)
    requires LinkOk(k) && TableEnd(BASE, table) <= LIMIT
    ensures Register(StartMachine(), table) == Some(n) && Stands(k, n, TableWorld(k, table))
    ensures forall name :: Lookup(TableWorld(k, table).words, name) == LastEntry(table, |table|, name)
    ensures forall fuel :: AllPossible(k, START, Registrations(table), fuel)
    ensures forall fuel :: AllNext(k, START, Registrations(table), fuel) == TableWorld(k, table)
  {
    hide Stands, AllPossible, AllNext, AfterAll, Register, Registrations, TableWords, TableDefs, LastEntry, TableEnd;
    StartStands(k);
    forall fuel
      ensures AllPossible(k, START, Registrations(table), fuel)
      ensures AllNext(k, START, Registrations(table), fuel) == TableWorld(k, table)
    {
      TableNext(k, table, fuel);
    }
    n := SessionStands(k, StartMachine(), START, Registrations(table), 0);
    RegisterIsSession(k, StartMachine(), table, 0);
    forall name ensures Lookup(TableWorld(k, table).words, name) == LastEntry(table, |table|, name) {
      TableLookup(BASE, table, |table|, name);
    }
  }

  /** So the words of the compiler are there if their last entries are. */
  lemma TableHas(k: Link, table: seq<Registration>, name: Text, f: Routine)
    requires var r := LastEntry(table, |table|, name);
             r >= 0 && table[r].code in k.routines && k.routines[table[r].code] == f
    ensures HasWord(k, TableWorld(k, table).words, name, f)
    ensures Immediate(TopBits(table[LastEntry(table, |table|, name)].flags)) ==>
              HasImmediate(k, TableWorld(k, table).words, name, f)
  {
    hide LastEntry, TableWords;
    TableLookup(BASE, table, |table|, name);
  }

  /** An entry takes at most 48 bytes, so the dictionary has room for 21845 of them. */
  lemma {:induction false} TableFits(here: nat, table: seq<Registration>)
    requires here % 8 == 0
    ensures TableEnd(here, table) <= here + 48 * |table|
    decreases |table|
  {
    hide AlignUp, NameLen;
    if table != [] {
      var next := AlignUp(here + 9 + NameLen(table[0].name)) + 8;
      EntryRoom(here, NameLen(table[0].name));
      TableFits(next, table[1..]);
    }
  }

  lemma EntryRoom(here: nat, n: nat)
    requires here % 8 == 0 && n <= MAX_NAME
    ensures AlignUp(here + 9 + n) + 8 <= here + 48 && (AlignUp(here + 9 + n) + 8) % 8 == 0
  {
  }

  lemma {:induction false} SessionAppend(k: Link, w: World, es: seq<Event>, fs: seq<Event>, fuel: nat)
    requires Sound(k, w) && AllPossible(k, w, es, fuel)
    ensures AllPossible(k, w, es + fs, fuel) <==> AllPossible(k, AllNext(k, w, es, fuel), fs, fuel)
    ensures AllPossible(k, w, es + fs, fuel) ==>
              AllNext(k, w, es + fs, fuel) == AllNext(k, AllNext(k, w, es, fuel), fs, fuel)
    decreases |es|
  {
    hide Possible, EventNext, Sound;
    if es == [] {
      assert es + fs == fs;
    } else {
      assert (es + fs)[1..] == es[1..] + fs;
      SessionAppend(k, EventNext(k, w, es[0], fuel), es[1..], fs, fuel);
    }
  }

  /** The same for sessions after forth_init with any table that fits. */
  lemma InitialisedSession(k: Link, table: seq<Registration>, es: seq<Event>, fuel: nat) returns (n: Machine)
    requires LinkOk(k) && TableEnd(BASE, table) <= LIMIT
    requires AllPossible(k, TableWorld(k, table), es, fuel)
    ensures var w := AllNext(k, TableWorld(k, table), es, fuel);
            && AfterAll(k, StartMachine(), Registrations(table) + es, fuel) == Some(n) && Stands(k, n, w)
            && forall i :: 0 <= i < |w.defs| ==> Terminates(k, n, w, i)
  {
    hide AllPossible, AllNext, AfterAll, Register, TableWords, LastEntry, TableEnd;
    var m := Initialised(k, table);
    SessionAppend(k, START, Registrations(table), es, fuel);
    n := SessionTerminates(k, Registrations(table) + es, fuel);
  }
}
