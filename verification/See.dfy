/**
  vm/core/forth.c, lines 310-353: SEE prints a compiled word as text that compiles to the same cells.
 */
module See {
  import opened Cells
  import opened Dictionary
  import opened Numbers
  import opened Stacks
  import opened ForthWords
  import opened ForthMachine
  import opened ForthCompiler
  import opened CompileProofs

  // ----- what is printed -----

  /** The characters of a printed number: digits and perhaps a sign. */
  predicate NumberChar(c: char) { c == '-' || 0 <= DigitValue(c) < 10 }

  lemma NumberChars(v: I64)
    ensures forall i :: 0 <= i < |SignedNumeral(v, 10)| ==> NumberChar(SignedNumeral(v, 10)[i])
  {
    var s := SignedNumeral(v, 10);
    forall i | 0 <= i < |s| ensures NumberChar(s[i]) {
      if v < 0 {
        if i > 0 { NumeralChars(-(v as int), 10, i - 1); }
      } else {
        NumeralChars(v, 10, i);
      }
    }
  }

  lemma NumberCharIsByte(c: char)
    requires NumberChar(c)
    ensures c as int < 256 && !IsSpace(c) && c != 'x' && c != 'X' && c != '$' && c != '#' && c != '%'
  {
  }

  /** What ltoa leaves in SEE's buffer. */
  function Printed(v: I64): Text {
    NumberChars(v);
    assert forall c: char :: NumberChar(c) ==> c as int < 256;
    SignedNumeral(v, 10)
  }

  /** The text SEE prints for the body at address a, as long as it stays in the dictionary. */
  function SeeFrom(k: Link, mem: Region, a: nat): Option<Text>
    decreases LIMIT - a
  {
    if !InCell(a) then None
    else
      var cell := ReadCell(mem, a);
      if cell == SENTINEL then Some(";\n")
      else if cell == k.doLiteral then
        if !InCell(a + 8) then None
        else Before(Printed(Signed(ReadCell(mem, a + 8))), SeeFrom(k, mem, a + 16))
      else if BASE <= cell < LIMIT then
        if HeaderAt(mem, cell) then Before(NameOf(mem, cell), SeeFrom(k, mem, a + 8)) else None
      else Before("???", SeeFrom(k, mem, a + 8))
  }

  function Before(tok: Text, rest: Option<Text>): Option<Text> {
    match rest
    case None => None
    case Some(t) => Some(tok + [' '] + t)
  }

  /** The text SEE prints for the entry at e. */
  function SeeText(k: Link, mem: Region, e: nat): Option<Text>
    requires HeaderAt(mem, e)
  {
    var head: Text := [':', ' '] + NameOf(mem, e) + [' '];
    if !InCell(CodeField(mem, e)) then None
    else
      var code := ReadCell(mem, CodeField(mem, e));
      if code == k.doVariable then Some(head + "VARIABLE\n")
      else if code == k.doConstant then Some(head + "CONSTANT\n")
      else if code != k.doColon then Some(head + "<native>\n")
      else
        match SeeFrom(k, mem, ParamField(mem, e))
        case None => None
        case Some(t) => Some(head + t)
  }

  /** What SEE answers to a name, empty at the end of the line. */
  function SeeAnswer(k: Link, d: Dictionary.Space, name: Text): Option<Text> {
    if name == [] then Some([])
    else
      match Find(d.mem, d.latest, name)
      case Lost => None
      case Nothing => Some(" ? Not found\n")
      case Entry(e) => SeeText(k, d.mem, e)
  }

  // ----- it prints the items -----

  function Show(words: seq<Word>, it: Item): Text
    requires CallBelow(it, |words|)
  {
    match it
    case Lit(v) => Printed(v)
    case Call(w) => words[w].name
  }

  function Shown(words: seq<Word>, items: seq<Item>): Text
    requires CallsBelow(items, |words|)
  {
    if items == [] then ";\n"
    else
      assert CallBelow(items[0], |words|);
      Show(words, items[0]) + [' '] + Shown(words, items[1..])
  }

  lemma SeeLiteral(k: Link, mem: Region, a: nat, v: I64)
    requires InCell(a) && InCell(a + 8) && ReadCell(mem, a) == k.doLiteral && k.doLiteral != SENTINEL
    requires ReadCell(mem, a + 8) == Unsigned(v)
    ensures SeeFrom(k, mem, a) == Before(Printed(v), SeeFrom(k, mem, a + 16))
  {
    hide Printed, ReadCell;
    SignedUnsigned(v, 0);
  }

  lemma SeeCall(k: Link, mem: Region, a: nat, e: nat, name: Text)
    requires InCell(a) && ReadCell(mem, a) == e && BASE <= e < LIMIT && !(BASE <= k.doLiteral < LIMIT)
    requires HeaderAt(mem, e) && NameOf(mem, e) == name
    ensures SeeFrom(k, mem, a) == Before(name, SeeFrom(k, mem, a + 8))
  {
    hide Printed, ReadCell, NameOf, HeaderAt;
  }

  /** SEE steps over literals, so that no number is taken for the end or for another literal. */
  lemma {:induction false} SeePrintsItems(k: Link, m: Machine, words: seq<Word>, defs: seq<Def>, st: Store,
                                          i: nat, o: nat, items: seq<Item>)
    requires Rep(k, m, words, defs, st) && Ahead(k, words, i, o, items, [SENTINEL])
    ensures SeeFrom(k, m.dict.mem, CellAddr(words[i], o)) == Some(Shown(words, items))
    decreases |items|
  {
    hide Image, Printed, ReadCell, NameOf, HeaderAt, SeeFrom, Dispatch, RunPrim;
    if items == [] {
      assert words[i].cells[o..][0] == SENTINEL;
      CellAt(m.dict, words, i, o);
      SeeEnd(k, m.dict.mem, CellAddr(words[i], o));
    } else {
      var it := items[0];
      CodeStep(k, words, i, o, items, [SENTINEL]);
      var c := CellsOf(k, words, it);
      SeePrintsItems(k, m, words, defs, st, i, o + |c|, items[1..]);
      CellAt(m.dict, words, i, o);
      match it
      case Lit(v) =>
        assert words[i].cells[o..o + 2][0] == k.doLiteral && words[i].cells[o..o + 2][1] == Unsigned(v);
        CellAt(m.dict, words, i, o + 1);
        SeeLiteral(k, m.dict.mem, CellAddr(words[i], o), v);
      case Call(w) =>
        assert words[i].cells[o..o + 1][0] == words[w].addr;
        StoredName(m.dict, words, w);
        SeeCall(k, m.dict.mem, CellAddr(words[i], o), words[w].addr, words[w].name);
    }
  }

  lemma SeeEnd(k: Link, mem: Region, a: nat)
    requires InCell(a) && ReadCell(mem, a) == SENTINEL
    ensures SeeFrom(k, mem, a) == Some(";\n")
  {
  }

  lemma StoredName(d: Dictionary.Space, words: seq<Word>, w: nat)
    requires Image(d, words) && w < |words|
    ensures HeaderAt(d.mem, words[w].addr) && NameOf(d.mem, words[w].addr) == words[w].name
    ensures ParamField(d.mem, words[w].addr) == CellAddr(words[w], 0) && |words[w].name| <= MAX_NAME
    ensures BASE <= words[w].addr < LIMIT
    ensures InCell(CodeField(d.mem, words[w].addr)) && ReadCell(d.mem, CodeField(d.mem, words[w].addr)) == words[w].code
  {
    assert StoredAt(d.mem, words, w);
    Getters(d.mem, words[w], LinkTo(words, w));
  }

  // ----- the text splits into the tokens -----

  /** A token as parse_word delivers them. */
  ghost predicate Token(tok: Text) {
    0 < |tok| <= MAX_TOKEN && forall i :: 0 <= i < |tok| ==> !IsSpace(tok[i])
  }

  lemma {:induction false} WordEndAt(text: Text, i: nat, e: nat, n: nat)
    requires i <= e < |text| && e - i <= n && IsSpace(text[e])
    requires forall j :: i <= j < e ==> !IsSpace(text[j])
    ensures WordEnd(text, i, n) == e
    decreases n
  {
    if i < e { WordEndAt(text, i + 1, e, n - 1); }
  }

  /** A token followed by a blank is the next token. */
  lemma NextToken(text: Text, i: nat, tok: Text, rest: Text)
    requires i <= |text| && Token(tok) && text[i..] == tok + rest && rest != [] && IsSpace(rest[0])
    ensures ParseWord(text, i) == (tok, i + |tok|) && i + |tok| <= |text| && text[i + |tok|..] == rest
  {
    hide IsSpace;
    var e := i + |tok|;
    assert forall j :: i <= j < e ==> text[j] == text[i..][j - i];
    assert text[e] == text[i..][|tok|];
    assert text[i] == tok[0];
    WordEndAt(text, i, e, MAX_TOKEN);
    assert text[i..e] == text[i..][..|tok|];
    assert text[e..] == text[i..][|tok|..];
  }

  lemma AfterBlank(text: Text, i: nat)
    requires i < |text| && IsSpace(text[i])
    ensures Tokens(text, i) == Tokens(text, i + 1)
  {
    assert ParseWord(text, i) == ParseWord(text, i + 1);
  }

  /** One token and one blank. */
  lemma TokenThen(text: Text, i: nat, tok: Text, rest: Text)
    requires i <= |text| && Token(tok) && text[i..] == tok + [' '] + rest
    ensures i + |tok| + 1 <= |text| && text[i + |tok| + 1..] == rest
    ensures Tokens(text, i) == [tok] + Tokens(text, i + |tok| + 1)
  {
    hide ParseWord;
    assert tok + [' '] + rest == tok + ([' '] + rest);
    NextToken(text, i, tok, [' '] + rest);
    assert text[i + |tok|] == text[i + |tok|..][0];
    AfterBlank(text, i + |tok|);
    assert text[i + |tok| + 1..] == text[i + |tok|..][1..];
  }

  function ShownToks(words: seq<Word>, items: seq<Item>): seq<Text>
    requires CallsBelow(items, |words|)
  {
    if items == [] then []
    else
      assert CallBelow(items[0], |words|);
      [Show(words, items[0])] + ShownToks(words, items[1..])
  }

  ghost predicate NamesAreTokens(words: seq<Word>) { forall i :: 0 <= i < |words| ==> Token(words[i].name) }

  lemma PrintedIsToken(v: I64)
    ensures Token(Printed(v))
  {
    NumberChars(v);
    BufferSizes(v);
    forall i | 0 <= i < |Printed(v)| ensures !IsSpace(Printed(v)[i]) { NumberCharIsByte(Printed(v)[i]); }
  }

  /** The end of SEE's line. */
  lemma LastToken(text: Text, i: nat)
    requires i <= |text| && text[i..] == ";\n"
    ensures Tokens(text, i) == [";"]
  {
    hide ParseWord;
    assert text[i..] == ";" + ['\n'];
    NextToken(text, i, ";", ['\n']);
    assert text[i + 1] == text[i + 1..][0];
    AfterBlank(text, i + 1);
    NoMore(text);
  }

  lemma NoMore(text: Text)
    ensures Tokens(text, |text|) == []
  {
  }

  lemma {:induction false} ShownSplits(words: seq<Word>, items: seq<Item>, text: Text, i: nat)
    requires CallsBelow(items, |words|) && NamesAreTokens(words)
    requires i <= |text| && text[i..] == Shown(words, items)
    ensures Tokens(text, i) == ShownToks(words, items) + [";"]
    decreases |items|
  {
    hide Tokens, Printed;
    if items == [] {
      LastToken(text, i);
    } else {
      var it := items[0];
      assert CallBelow(it, |words|);
      if it.Lit? { PrintedIsToken(it.v); }
      TokenThen(text, i, Show(words, it), Shown(words, items[1..]));
      ShownSplits(words, items[1..], text, i + |Show(words, it)| + 1);
    }
  }

  // ----- the tokens stand for the items -----

  /** A printed number reads back, all of it, as itself. */
  lemma PrintedReadsBack(v: I64)
    ensures TryNumber(Printed(v), 10) == Some(v)
  {
    var s := Printed(v);
    NumberChars(v);
    BufferSizes(v);
    forall i | 0 <= i < |s| ensures s[i] != 'x' && s[i] != 'X' && s[i] != '$' && s[i] != '#' && s[i] != '%' {
      NumberCharIsByte(s[i]);
    }
    assert NumberPrefix(s, 10) == (10, 0);
    assert s[0..] == s;
    StrtolInvertsLtoa(v);
  }

  /** The printed token still finds the item: its name finds the same non-immediate word, or no word has
      the number as its name. */
  ghost predicate StillFound(words: seq<Word>, it: Item)
    requires CallBelow(it, |words|)
  {
    match it
    case Lit(v) => Lookup(words, Printed(v)) < 0
    case Call(w) => Lookup(words, words[w].name) == w && !Immediate(words[w].flags)
  }

  ghost predicate AllFound(words: seq<Word>, items: seq<Item>)
    requires CallsBelow(items, |words|)
  {
    forall i :: 0 <= i < |items| ==> CallBelow(items[i], |words|) && StillFound(words, items[i])
  }

  lemma {:induction false} ShownResolves(words: seq<Word>, items: seq<Item>)
    requires CallsBelow(items, |words|) && AllFound(words, items)
    ensures Resolves(words, 10, ShownToks(words, items), items)
    decreases |items|
  {
    if items != [] {
      var it, toks := items[0], ShownToks(words, items);
      assert CallBelow(it, |words|) && StillFound(words, it);
      if it.Lit? { PrintedReadsBack(it.v); }
      ShownResolves(words, items[1..]);
      forall i | 0 <= i < |toks| ensures ResolvesAt(words, 10, toks, items, i) {
        if i > 0 { assert ResolvesAt(words, 10, toks[1..], items[1..], i - 1); }
      }
    }
  }

  // ----- SEE inverts the compiler -----

  /** Whatever numbers a straight-line word contains, evaluating the line SEE prints for it defines a word of
      that name with the same cells. */
  lemma SeeRecompiles(k: Link, m: Machine, words: seq<Word>, defs: seq<Def>, st: Store, i: nat, fuel: nat)
    returns (text: Text, n: Machine, copy: Word)
    requires Rep(k, m, words, defs, st) && m.mode == Interpret && m.base == 10
    requires i < |words| && defs[i].Colon? && CallsBelow(defs[i].body, |words|)
    requires NamesAreTokens(words) && AllFound(words, defs[i].body)
    requires HasWord(k, words, ":", ColonWord) && HasImmediate(k, words, ";", SemicolonWord)
    requires HasSpace(m.dict, words[i].name, |words[i].cells|)
    ensures HeaderAt(m.dict.mem, words[i].addr) && SeeText(k, m.dict.mem, words[i].addr) == Some(text)
    ensures Eval(k, m, Tokens(text, 0), fuel) == Some(n)
    ensures Rep(k, n, words + [copy], defs + [defs[i]], st)
    ensures copy.name == words[i].name && copy.code == words[i].code && copy.cells == words[i].cells
    ensures !Hidden(copy.flags)
  {
    hide Image, VarsAre, Grounded, Defines, HasSpace, Hidden, Eval, SeeText, HeaderAt, HasWord, HasImmediate, Shown;
    hide ShownToks, AllFound, Tokens, NamesAreTokens, Compiled;
    text := SeeLine(k, m, words, defs, st, i);
    IsToken(words, i);
    LineSplits(words, defs[i].body, words[i].name, text);
    n, copy := LineDefines(k, m, words, defs, st, i, fuel);
  }

  lemma IsToken(words: seq<Word>, i: nat)
    requires NamesAreTokens(words) && i < |words|
    ensures Token(words[i].name)
  {
  }

  /** The tokens of that line define the word again. */
  lemma LineDefines(k: Link, m: Machine, words: seq<Word>, defs: seq<Def>, st: Store, i: nat, fuel: nat)
    returns (n: Machine, copy: Word)
    requires Rep(k, m, words, defs, st) && m.mode == Interpret && m.base == 10
    requires i < |words| && defs[i].Colon? && CallsBelow(defs[i].body, |words|) && AllFound(words, defs[i].body)
    requires HasWord(k, words, ":", ColonWord) && HasImmediate(k, words, ";", SemicolonWord)
    requires HasSpace(m.dict, words[i].name, |words[i].cells|) && |words[i].name| <= MAX_NAME
    ensures Eval(k, m, [":", words[i].name] + ShownToks(words, defs[i].body) + [";"], fuel) == Some(n)
    ensures Rep(k, n, words + [copy], defs + [defs[i]], st)
    ensures copy.name == words[i].name && copy.code == words[i].code && copy.cells == words[i].cells
    ensures !Hidden(copy.flags)
  {
    hide Image, HasSpace, Hidden, Eval, HasWord, HasImmediate, ShownToks, AllFound, Grounded, VarsAre, Lookup;
    var items, name := defs[i].body, words[i].name;
    assert Defines(k, words, defs, i);
    var toks := ShownToks(words, items);
    ShownResolves(words, items);
    assert [":", name] + toks + [";"] == [":", name] + toks + [";"] + [];
    n := ColonDefines(k, m, words, defs, st, name, toks, items, [], fuel);
    copy := Compiled(k, words, m.dict.here, name, items);
    Plain(copy);
    EvalNothing(k, n, fuel);
    SmallLen(name);
    assert Clip(name) == name;
  }

  /** The line w_see prints for a colon word. */
  lemma SeeLine(k: Link, m: Machine, words: seq<Word>, defs: seq<Def>, st: Store, i: nat) returns (text: Text)
    requires Rep(k, m, words, defs, st) && i < |words| && defs[i].Colon? && CallsBelow(defs[i].body, |words|)
    ensures HeaderAt(m.dict.mem, words[i].addr) && SeeText(k, m.dict.mem, words[i].addr) == Some(text)
    ensures text == [':', ' '] + words[i].name + [' '] + Shown(words, defs[i].body) && |words[i].name| <= MAX_NAME
  {
    hide Image, SeeFrom, Shown;
    StoredName(m.dict, words, i);
    assert Defines(k, words, defs, i);
    assert words[i].cells[0..] == words[i].cells;
    SeePrintsItems(k, m, words, defs, st, i, 0, defs[i].body);
    text := SeeText(k, m.dict.mem, words[i].addr).value;
  }

  lemma Plain(w: Word)
    requires w.flags == 0
    ensures !Hidden(w.flags)
  {
  }

  lemma LineSplits(words: seq<Word>, items: seq<Item>, name: Text, text: Text)
    requires CallsBelow(items, |words|) && NamesAreTokens(words) && Token(name)
    requires text == [':', ' '] + name + [' '] + Shown(words, items)
    ensures Tokens(text, 0) == [":", name] + ShownToks(words, items) + [";"]
  {
    hide Tokens, Shown, ShownToks, NamesAreTokens;
    assert text[0..] == ":" + [' '] + (name + [' '] + Shown(words, items));
    TokenThen(text, 0, ":", name + [' '] + Shown(words, items));
    TokenThen(text, 2, name, Shown(words, items));
    ShownSplits(words, items, text, 2 + |name| + 1);
  }

  /** Of a variable, a constant or a primitive SEE prints the name and the kind. */
  lemma SeeOthers(k: Link, m: Machine, words: seq<Word>, defs: seq<Def>, st: Store, i: nat)
    requires Rep(k, m, words, defs, st) && i < |words|
    ensures HeaderAt(m.dict.mem, words[i].addr)
    ensures var (t, name) := (SeeText(k, m.dict.mem, words[i].addr), words[i].name);
            && (defs[i].Variable? ==> t == Some([':', ' '] + name + " VARIABLE\n"))
            && (defs[i].Constant? ==> t == Some([':', ' '] + name + " CONSTANT\n"))
            && (defs[i].Native? ==> t == Some([':', ' '] + name + " <native>\n"))
  {
    hide SeeFrom, Grounded, VarsAre;
    assert StoredAt(m.dict.mem, words, i) && Defines(k, words, defs, i);
    Getters(m.dict.mem, words[i], LinkTo(words, i));
    var head: Text := [':', ' '] + words[i].name;
    assert head + [' '] + "VARIABLE\n" == head + " VARIABLE\n";
    assert head + [' '] + "CONSTANT\n" == head + " CONSTANT\n";
    assert head + [' '] + "<native>\n" == head + " <native>\n";
  }

  /** A cell that is no entry, no literal and no sentinel is shown as question marks. */
  lemma SeeForeign(k: Link, mem: Region, a: nat, rest: Text)
    requires InCell(a) && SeeFrom(k, mem, a + 8) == Some(rest)
    requires var cell := ReadCell(mem, a); cell != SENTINEL && cell != k.doLiteral && !(BASE <= cell < LIMIT)
    ensures SeeFrom(k, mem, a) == Some("??? " + rest)
  {
    assert "???" + [' '] + rest == "??? " + rest;
  }

  /** Of a name that no visible word has, SEE says so. */
  lemma SeeMissing(k: Link, d: Dictionary.Space, words: seq<Word>, name: Text)
    requires Image(d, words) && name != [] && Lookup(words, name) < 0
    ensures SeeAnswer(k, d, name) == Some(" ? Not found\n")
  {
    FindIsLookup(d, words, name);
  }
}
