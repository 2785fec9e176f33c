/**
  vm/core/forth.c: parsing, the compiling words and forth_eval; and why compiling preserves meaning.
 */
module ForthCompiler {
  import opened Cells
  import opened Dictionary
  import opened Numbers
  import opened Stacks
  import opened ForthWords
  import opened ForthMachine
  import opened Width

  const MAX_TOKEN := 63

  // ----- tokens -----

  /** Where a token that starts at i ends: at a blank, at the end, or after n characters. */
  function WordEnd(text: Text, i: nat, n: nat): (e: nat)
    requires i <= |text|
    ensures i <= e <= |text| && e <= i + n
    ensures n > 0 && i < |text| && !IsSpace(text[i]) ==> e > i
    decreases n
  {
    if n == 0 || i == |text| || IsSpace(text[i]) then i else WordEnd(text, i + 1, n - 1)
  }

  /** parse_word: the token, empty at the end of the text, and where parsing goes on. */
  function ParseWord(text: Text, i: nat): (r: (Text, nat))
    requires i <= |text|
    ensures i <= r.1 <= |text| && |r.0| <= MAX_TOKEN && (if r.0 != [] then i < r.1 else r.1 == |text|)
  {
    var j := SkipSpace(text, i);
    var e := WordEnd(text, j, MAX_TOKEN);
    (text[j..e], e)
  }

  /** The tokens that successive calls of parse_word deliver. */
  function Tokens(text: Text, i: nat): seq<Text>
    requires i <= |text|
    decreases |text| - i
  {
    var (token, j) := ParseWord(text, i);
    if token == [] then [] else [token] + Tokens(text, j)
  }

  /** No blank among the characters. */
  predicate Solid(w: Text) { forall i :: 0 <= i < |w| ==> !Blanks([w[i]]) }

  lemma {:induction false} WordEnds(p: Text, w: Text, rest: Text, i: nat, n: nat)
    requires i <= |w| && Solid(w) && |w| <= i + n && (rest == [] || Blanks([rest[0]]) || |w| == i + n)
    ensures WordEnd(p + (w + rest), |p| + i, n) == |p| + |w|
    decreases n
  {
    var s := p + (w + rest);
    if i < |w| {
      assert s[|p| + i] == w[i] && !Blanks([w[i]]);
      if IsSpace(w[i]) { SpaceIsBlank(w[i]); }
      WordEnds(p, w, rest, i + 1, n - 1);
    } else if rest != [] {
      assert s[|p| + i] == rest[0];
      if n > 0 { assert Blanks([rest[0]]) && [rest[0]][0] == rest[0]; }
    }
  }

  lemma SpaceIsBlank(c: char)
    requires IsSpace(c)
    ensures Blanks([c])
  {
  }

  /** parse_word skips blanks and takes the word behind them, up to the next blank, the end of the text or the
      63rd character; on blanks alone it finds nothing. */
  lemma WordParsed(blanks: Text, w: Text, rest: Text)
    requires Blanks(blanks) && Solid(w) && w != [] && |w| <= 63
    requires rest == [] || Blanks([rest[0]]) || |w| == 63
    ensures ParseWord(blanks + (w + rest), 0) == (w, |blanks| + |w|)
    ensures ParseWord(blanks, 0) == ([], |blanks|)
  {
    hide IsSpace, Blanks, WordEnd, SkipSpace;
    var s := blanks + (w + rest);
    assert (w + rest)[0] == w[0];
    SkipBlank(blanks, w + rest, 0);
    WordEnds(blanks, w, rest, 0, MAX_TOKEN);
    assert s[|blanks|..|blanks| + |w|] == w;
    SkipBlank(blanks, [], 0);
    assert blanks + [] == blanks;
  }

  /** The base that a prefix selects, and the length of the prefix. */
  function NumberPrefix(word: Text, base: nat): (r: (nat, nat))
    ensures r.1 <= |word|
  {
    if |word| >= 2 && word[0] == '0' && (word[1] == 'x' || word[1] == 'X') then (16, 2)
    else if |word| >= 1 && word[0] == '$' then (16, 1)
    else if |word| >= 1 && word[0] == '#' then (10, 1)
    else if |word| >= 1 && word[0] == '%' then (2, 1)
    else (base, 0)
  }

  /** try_parse_number; a sign alone reads as 0. */
  function TryNumber(word: Text, base: nat): Option<I64> {
    var (b, n) := NumberPrefix(word, base);
    var (v, end) := StrtolSpec(word[n..], b);
    if end == |word| - n && end != 0 then Some(v) else None
  }

  /** The numeral of an unsigned number. */
  function NumeralText(v: nat, base: nat): (s: Text)
    requires 2 <= base <= 36
  {
    assert forall i :: 0 <= i < |Numeral(v, base)| ==> Numeral(v, base)[i] as int < 256 by {
      forall i | 0 <= i < |Numeral(v, base)| ensures Numeral(v, base)[i] as int < 256 { NumeralChars(v, base, i); }
    }
    Numeral(v, base)
  }

  /** A numeral in letters of either case reads as its number. */
  lemma NumeralReads(v: nat, base: nat, t: Text)
    requires v < TWO63 && 2 <= base <= 36 && SameButCase(NumeralText(v, base), t)
    ensures StrtolSpec(t, base) == (v, |t|)
  {
    NumeralChars(v, base, 0);
    ScanNumeral(v, base);
    CaseIgnored(Numeral(v, base), t, base);
  }

  /** In every current base a prefix selects hexadecimal, in letters of either case, */
  lemma HexNumbers(v: nat, base: nat, t: Text)
    requires v < TWO63 && SameButCase(NumeralText(v, 16), t)
    ensures TryNumber(['0', 'x'] + t, base) == Some(v)
    ensures TryNumber(['0', 'X'] + t, base) == Some(v)
    ensures TryNumber(['$'] + t, base) == Some(v)
  {
    hide NumeralText, StrtolSpec, Capital;
    NumeralReads(v, 16, t);
    assert (['0', 'x'] + t)[2..] == t == (['0', 'X'] + t)[2..];
    assert (['$'] + t)[1..] == t;
    NumeralNotEmpty(v);
  }

  /** decimal or binary. */
  lemma PrefixedNumbers(v: nat, base: nat)
    requires v < TWO63
    ensures TryNumber(['#'] + NumeralText(v, 10), base) == Some(v)
    ensures TryNumber(['%'] + NumeralText(v, 2), base) == Some(v)
  {
    hide NumeralText, StrtolSpec;
    NumeralReads(v, 10, NumeralText(v, 10));
    NumeralReads(v, 2, NumeralText(v, 2));
    assert (['#'] + NumeralText(v, 10))[1..] == NumeralText(v, 10);
    assert (['%'] + NumeralText(v, 2))[1..] == NumeralText(v, 2);
    NumeralNotEmpty(v);
  }

  /** Without a prefix the current base counts, and a sign may stand in front. */
  lemma PlainNumbers(v: int, base: nat, t: Text)
    requires 0 <= v < TWO63 && 2 <= base <= 36 && SameButCase(NumeralText(v, base), t)
    ensures TryNumber(t, base) == Some(v)
    ensures TryNumber(['-'] + t, base) == Some(-v) && TryNumber(['+'] + t, base) == Some(v)
  {
    hide StrtolSpec, Scan;
    NumeralReads(v, base, t);
    NumeralChars(v, base, 0);
    if v > 0 { LeadingDigit(v, base); }
    assert t[0..] == t && (['-'] + t)[0..] == ['-'] + t && (['+'] + t)[0..] == ['+'] + t;
    SignedReads(v, base, t, ['-']);
    SignedReads(v, base, t, ['+']);
  }

  lemma SignedReads(v: int, base: nat, t: Text, sign: Text)
    requires 0 <= v < TWO63 && 2 <= base <= 36 && SameButCase(NumeralText(v, base), t) && sign in ["-", "+"]
    ensures StrtolSpec(sign + t, base) == (if sign == "-" then -v else v, |t| + 1)
  {
    hide StrtolSpec, Numeral, Capital;
    var n := NumeralText(v, base);
    StrtolReads("", sign, v, base);
    assert "" + (sign + n) == sign + n;
    CaseIgnored(sign + n, sign + t, base);
  }

  lemma NumeralNotEmpty(v: nat)
    ensures NumeralText(v, 16) != [] && NumeralText(v, 10) != [] && NumeralText(v, 2) != []
  {
  }

  /** A sign alone is taken for 0, but a prefix alone is no number. */
  lemma SignAlone(base: nat)
    ensures TryNumber("-", base) == Some(0) && TryNumber("+", base) == Some(0)
    ensures TryNumber("0x", base) == None && TryNumber("$", base) == None
  {
    assert "-"[0..] == "-" && "+"[0..] == "+" && "0x"[2..] == "" && "$"[1..] == "";
  }

  // ----- the compiling words -----

  function CommaTo(m: Machine, v: nat): Option<Machine> {
    if HasCell(m.dict) then Some(m.(dict := Comma(m.dict, v))) else None
  }

  /** Two cells, one after the other. */
  function CommaTwo(m: Machine, u: nat, v: nat): Option<Machine> {
    match CommaTo(m, u)
    case None => None
    case Some(n) => CommaTo(n, v)
  }

  /** A new entry with its code field. */
  function NewEntry(m: Machine, name: Text, flags: nat, code: nat): Option<Machine> {
    if HasHeader(m.dict, name) && m.dict.latest < TWO64 && InCell(Create(m.dict, name, flags).here) then
      Some(m.(dict := PutCell(Create(m.dict, name, flags), code)))
    else None
  }

  /** A call of dict_add_primitive. */
  datatype Registration = Registration(name: Text, code: U64, flags: nat)

  /** register_primitives, for a table of its calls. */
  function Register(m: Machine, table: seq<Registration>): Option<Machine>
    decreases |table|
  {
    if table == [] then Some(m)
    else
      match NewEntry(m, table[0].name, table[0].flags, table[0].code)
      case None => None
      case Some(n) => Register(n, table[1..])
  }

  /** w_colon */
  function StartColon(k: Link, m: Machine, name: Text): Option<Machine> {
    match NewEntry(m, name, F_HIDDEN, k.doColon)
    case None => None
    case Some(n) => Some(n.(mode := Compile))
  }

  /** w_semicolon */
  function FinishColon(m: Machine): Option<Machine> {
    match CommaTo(m, SENTINEL)
    case None => None
    case Some(n) =>
      if HeaderAt(n.dict.mem, n.dict.latest) then Some(n.(dict := Reveal(n.dict), mode := Interpret)) else None
  }

  /** w_variable, with the name it finds. */
  function NewVariable(k: Link, m: Machine, name: Text): Option<Machine> {
    match NewEntry(m, name, 0, k.doVariable)
    case None => None
    case Some(n) => CommaTo(n, 0)
  }

  /** w_constant, with the name it finds. */
  function NewConstant(k: Link, m: Machine, name: Text): Option<Machine> {
    match NewEntry(m, name, 0, k.doConstant)
    case None => None
    case Some(n) => CommaTo(n.(ds := Rest(n.ds)), Unsigned(Top(n.ds)))
  }

  /** Store HERE at the address on top of the stack. */
  function PatchHere(m: Machine): Option<Machine> {
    var a := Unsigned(Top(m.ds));
    if InCell(a) && m.dict.here < TWO64 then Some(Poke(m.(ds := Rest(m.ds)), a, m.dict.here)) else None
  }

  function PushHere(m: Machine): Machine { WithTop(m, Wrap(m.dict.here)) }

  /** A branch whose target is not known yet: the address of its operand goes on the stack. */
  function OpenBranch(m: Machine, code: nat): Option<Machine> {
    match CommaTo(m, code)
    case None => None
    case Some(n) => CommaTo(PushHere(n), 0)
  }

  /** A branch back to the address on top of the stack. */
  function BranchBack(m: Machine, code: nat): Option<Machine> {
    CommaTwo(m.(ds := Rest(m.ds)), code, Unsigned(Top(m.ds)))
  }

  function ElseStep(k: Link, m: Machine): Option<Machine> {
    match CommaTo(m, k.branch)
    case None => None
    case Some(n) =>
      var e := n.dict.here;
      match CommaTo(n, 0)
      case None => None
      case Some(o) => (match PatchHere(o) case None => None case Some(q) => Some(WithTop(q, Wrap(e))))
  }

  function RepeatStep(k: Link, m: Machine): Option<Machine> {
    var w, s: Data := Top(m.ds), Rest(m.ds);
    match CommaTwo(m.(ds := Rest(s)), k.branch, Unsigned(Top(s)))
    case None => None
    case Some(n) => PatchHere(n.(ds := Push(n.ds, w)))
  }

  /** The control-flow words, lines 387-402. */
  function ControlStep(k: Link, m: Machine, c: Control): Option<Machine> {
    match c
    case If => OpenBranch(m, k.zeroBranch)
    case Else => ElseStep(k, m)
    case Then => PatchHere(m)
    case Begin => Some(PushHere(m))
    case Until => BranchBack(m, k.zeroBranch)
    case Again => BranchBack(m, k.branch)
    case While => OpenBranch(m, k.zeroBranch)
    case Repeat => RepeatStep(k, m)
    case Do => (match CommaTo(m, k.enter) case None => None case Some(n) => Some(PushHere(n)))
    case Loop => BranchBack(m, k.loop)
  }

  // ----- forth_eval -----

  /** The modelled function an entry's code field points to, if it points to one. */
  function RoutineOf(k: Link, mem: Region, e: nat): Option<Routine>
    requires HeaderAt(mem, e)
  {
    if InCell(CodeField(mem, e)) && ReadCell(mem, CodeField(mem, e)) in k.routines
    then Some(k.routines[ReadCell(mem, CodeField(mem, e))]) else None
  }

  /** Executing an entry from the outer interpreter: the parsing words take the next token as a name. */
  function ExecuteToken(k: Link, m: Machine, e: nat, rest: seq<Text>, fuel: nat): (r: (Option<Machine>, seq<Text>))
    requires HeaderAt(m.dict.mem, e)
    ensures |r.1| <= |rest|
  {
    match RoutineOf(k, m.dict.mem, e)
    case Some(ColonWord) => if rest == [] then (Some(m), rest) else (StartColon(k, m, rest[0]), rest[1..])
    case Some(VariableWord) => if rest == [] then (CommaTo(m, 0), rest) else (NewVariable(k, m, rest[0]), rest[1..])
    case Some(ConstantWord) => if rest == [] then (Some(m), rest) else (NewConstant(k, m, rest[0]), rest[1..])
    case Some(SemicolonWord) => (FinishColon(m), rest)
    case Some(Flow(c)) => (ControlStep(k, m, c), rest)
    case _ => (Execute(k, m, e, fuel), rest)
  }

  /** One round of forth_eval's loop: the new machine, None where the model ends, and the tokens left. */
  function Step(k: Link, m: Machine, toks: seq<Text>, fuel: nat): (r: (Option<Machine>, seq<Text>))
    requires toks != []
    ensures |r.1| < |toks|
  {
    var rest := toks[1..];
    match Find(m.dict.mem, m.dict.latest, toks[0])
    case Lost => (None, rest)
    case Entry(e) =>
      if m.mode == Compile && !Immediate(FlagsOf(m.dict.mem, e)) then (CommaTo(m, e), rest)
      else ExecuteToken(k, m, e, rest, fuel)
    case Nothing =>
      match TryNumber(toks[0], m.base)
      case Some(v) =>
        if m.mode == Compile then (CommaTwo(m, k.doLiteral, Unsigned(v)), rest) else (Some(WithTop(m, v)), rest)
      case None => (Some(m.(mode := Interpret)), [])
  }

  /** forth_eval on a line's tokens, each word executed within `fuel` iterations of the inner interpreter. */
  function Eval(k: Link, m: Machine, toks: seq<Text>, fuel: nat): Option<Machine>
    decreases |toks|
  {
    if toks == [] then Some(m)
    else
      var (r, rest) := Step(k, m, toks, fuel);
      match r
      case None => None
      case Some(n) => Eval(k, n, rest, fuel)
  }
}
