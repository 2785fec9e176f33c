/**
  vm/core/forth.c as it runs: one object holding the dictionary, the stacks, the instruction pointer and
  the parser, each method tied to the function that describes it.
 */
module Forth {
  import opened Cells
  import opened Dictionary
  import opened Numbers
  import opened Stacks
  import opened ForthWords
  import opened ForthMachine
  import opened ForthCompiler
  import P = Primitives
  import S = See
  import opened Width

  class Interpreter {
    const k: Link
    const dict: Dict
    const ds: BoundedStack<I64>
    const rs: BoundedStack<U64>
    var ip: U64
    var mode: Mode
    var base: nat
    var text: Text
    var pos: nat

    constructor (k: Link)
      ensures Valid() && fresh(Repr()) && this.k == k && State() == StartMachine()
    {
      this.k := k;
      dict := new Dict();
      ds := new BoundedStack<I64>(0);
      rs := new BoundedStack<U64>(0);
      ip, mode, base, text, pos := 0, Interpret, 10, [], 0;
    }

    /** forth_init: empty stacks and dictionary, then the primitives of the table. */
    method ForthInit(table: seq<Registration>)
      requires Valid() && Register(State().(dict := Blank(), ds := [], rs := []), table).Some?
      modifies Parts()
      ensures Valid() && Some(State()) == Register(old(State()).(dict := Blank(), ds := [], rs := []), table)
    {
      hide Register;
      ds.Clear();
      rs.Clear();
      dict.DictInit();
      RegisterPrimitives(table);
    }

    /** register_primitives */
    method RegisterPrimitives(table: seq<Registration>)
      requires Valid() && Register(State(), table).Some?
      modifies dict, dict.bytes
      ensures Valid() && Some(State()) == Register(old(State()), table)
    {
      assert table[0..] == table;
      for i := 0 to |table|
        invariant Valid() && Register(State(), table[i..]) == Register(old(State()), table)
      {
        assert table[i..][0] == table[i] && table[i..][1..] == table[i + 1..];
        AddPrimitive(table[i].name, table[i].code, table[i].flags);
      }
      assert table[|table|..] == [];
    }

    ghost function Repr(): set<object> {
      {this, dict, dict.bytes, ds, ds.items, rs, rs.items}
    }

    /** The parts of the machine other than the interpreter's own variables. */
    ghost function Parts(): set<object> { {dict, dict.bytes, ds, ds.items, rs, rs.items} }

    ghost predicate Valid()
      reads this, dict, ds, rs
    {
      && dict.Valid() && P.Ok(ds) && rs.Valid() && rs.zero == 0 && pos <= |text|
      && (ds as object) != (rs as object) && (ds.items as object) != (rs.items as object)
      && (dict.bytes as object) != (ds.items as object) && (dict.bytes as object) != (rs.items as object)
    }

    function State(): Machine
      reads this, dict, dict.bytes, ds, ds.items, rs, rs.items
      requires Valid()
    {
      Machine(dict.Memory(), ds.Contents(), rs.Contents(), ip, mode, base)
    }

    // ----- primitives -----

    method StoreTo(a: nat, v: nat)
      requires Valid() && InCell(a)
      modifies dict.bytes
      ensures Valid() && State() == Poke(old(State()), a, v)
    {
      dict.StoreCell(a, v);
    }

    /** A primitive word's C function. */
    method Primitive(p: Prim)
      requires Valid() && RunPrim(p, State()).Some?
      modifies ds, ds.items, dict.bytes
      ensures Valid() && Some(State()) == RunPrim(p, old(State()))
    {
      match p
      case Calc(op) => P.Calculate(op, ds);
      case Fetch => FetchWord();
      case Store => StoreWord();
      case PlusStore => PlusStoreWord();
    }

    method FetchWord()
      requires Valid() && RunPrim(Fetch, State()).Some?
      modifies ds, ds.items
      ensures Valid() && Some(State()) == RunPrim(Fetch, old(State()))
    {
      var a := ds.PopTop();
      ds.PushTop(Signed(ReadCell(dict.bytes[..], Unsigned(a))));
    }

    method StoreWord()
      requires Valid() && RunPrim(Store, State()).Some?
      modifies ds, ds.items, dict.bytes
      ensures Valid() && Some(State()) == RunPrim(Store, old(State()))
    {
      var a := ds.PopTop();
      var v := ds.PopTop();
      StoreTo(Unsigned(a), Unsigned(v));
    }

    method PlusStoreWord()
      requires Valid() && RunPrim(PlusStore, State()).Some?
      modifies ds, ds.items, dict.bytes
      ensures Valid() && Some(State()) == RunPrim(PlusStore, old(State()))
    {
      var a := ds.PopTop();
      var v := ds.PopTop();
      StoreTo(Unsigned(a), (ReadCell(dict.bytes[..], Unsigned(a)) + Unsigned(v)) % TWO64);
    }

    // ----- execution -----

    /** Starts an entry: by a jump to its body for a colon word, altogether for any other. */
    method Start(e: nat) returns (entered: bool)
      requires Valid() && Dispatch(k, State(), e) != Off
      modifies this`ip, Parts()
      ensures Valid() && Dispatch(k, old(State()), e) == if entered then Entered(State()) else Did(State())
    {
      var code := ReadCell(dict.bytes[..], CodeField(dict.bytes[..], e));
      var param := ParamField(dict.bytes[..], e);
      entered := code == k.doColon;
      if code == k.doColon {
        rs.PushTop(ip);
        ip := param;
      } else if code == k.doVariable {
        ds.PushTop(Signed(param));
      } else if code == k.doConstant {
        ds.PushTop(Signed(ReadCell(dict.bytes[..], param)));
      } else {
        Primitive(k.routines[code].p);
      }
    }

    /** ip_fetch_advance */
    method FetchAdvance() returns (cell: nat)
      requires Valid() && InCell(ip)
      modifies this`ip
      ensures Valid() && ip == old(ip) + 8 && cell == ReadCell(State().dict.mem, old(ip))
    {
      cell := ReadCell(dict.bytes[..], ip);
      ip := ip + 8;
    }

    /** The sentinel's branch of forth_inner. */
    method PopIp()
      requires Valid()
      modifies this`ip, rs
      ensures Valid()
      ensures State() == old(State()).(rs := Rest(old(State()).rs), ip := Peek(old(State()).rs, 0))
    {
      ip := rs.PopTop();
    }

    /** do_literal */
    method DoLiteral()
      requires Valid() && InCell(ip)
      modifies this`ip, ds, ds.items
      ensures Valid()
      ensures State() == WithTop(old(State()).(ip := old(ip) + 8), Signed(ReadCell(old(State()).dict.mem, old(ip))))
    {
      var v := FetchAdvance();
      ds.PushTop(Signed(v));
    }

    /** The body of forth_inner's loop. */
    method Iteration() returns (go: bool)
      requires Valid() && Iterate(k, State()) != Fault
      modifies this`ip, Parts()
      ensures Valid() && Iterate(k, old(State())) == if go then Running(State()) else Returned(State())
    {
      hide Dispatch, ReadCell;
      var cell := FetchAdvance();
      if cell == SENTINEL {
        PopIp();
        return ip != 0;
      }
      if cell == k.doLiteral {
        DoLiteral();
        return true;
      }
      if cell < BASE || cell >= LIMIT { return false; }
      var entered := Start(cell);
      return true;
    }

    /** forth_inner, which returns within n iterations. */
    method Inner(ghost n: nat)
      requires Valid() && Steps(k, State(), n).Returned?
      modifies this`ip, Parts()
      ensures Valid() && Returned(State()) == Steps(k, old(State()), n)
    {
      ghost var left := n;
      var go := true;
      while go
        invariant Valid()
        invariant if go then Steps(k, State(), left) == Steps(k, old(State()), n)
                        else Returned(State()) == Steps(k, old(State()), n)
        decreases left, go
      {
        go := Iteration();
        left := if go then left - 1 else left;
      }
    }

    /** forth_execute */
    method ForthExecute(e: nat, ghost fuel: nat)
      requires Valid() && Execute(k, State(), e, fuel).Some?
      modifies this`ip, Parts()
      ensures Valid() && Some(State()) == Execute(k, old(State()), e, fuel)
    {
      var entered := Start(e);
      if entered { Inner(fuel); }
    }

    // ----- compiling words -----

    /** dict_comma */
    method Comma(v: nat)
      requires Valid() && CommaTo(State(), v).Some?
      modifies dict, dict.bytes
      ensures Valid() && Some(State()) == CommaTo(old(State()), v)
    {
      dict.DictComma(v);
    }

    method CommaPair(u: nat, v: nat)
      requires Valid() && CommaTwo(State(), u, v).Some?
      modifies dict, dict.bytes
      ensures Valid() && Some(State()) == CommaTwo(old(State()), u, v)
    {
      Comma(u);
      Comma(v);
    }

    /** dict_create and dict_set_code */
    method Entry(name: Text, flags: nat, code: nat)
      requires Valid() && NewEntry(State(), name, flags, code).Some?
      modifies dict, dict.bytes
      ensures Valid() && Some(State()) == NewEntry(old(State()), name, flags, code)
    {
      dict.DictCreate(name, flags);
      dict.DictSetCode(code);
    }

    /** dict_add_primitive */
    method AddPrimitive(name: Text, code: U64, flags: nat)
      requires Valid() && NewEntry(State(), name, flags, code).Some?
      modifies dict, dict.bytes
      ensures Valid() && Some(State()) == NewEntry(old(State()), name, flags, code)
    {
      Entry(name, flags, code);
    }

    method Colon(name: Text)
      requires Valid() && StartColon(k, State(), name).Some?
      modifies this`mode, dict, dict.bytes
      ensures Valid() && Some(State()) == StartColon(k, old(State()), name)
    {
      Entry(name, F_HIDDEN, k.doColon);
      mode := Compile;
    }

    method Semicolon()
      requires Valid() && FinishColon(State()).Some?
      modifies this`mode, dict, dict.bytes
      ensures Valid() && Some(State()) == FinishColon(old(State()))
    {
      Comma(SENTINEL);
      dict.ClearHidden();
      mode := Interpret;
    }

    method VariableNamed(name: Text)
      requires Valid() && NewVariable(k, State(), name).Some?
      modifies dict, dict.bytes
      ensures Valid() && Some(State()) == NewVariable(k, old(State()), name)
    {
      Entry(name, 0, k.doVariable);
      Comma(0);
    }

    method ConstantNamed(name: Text)
      requires Valid() && NewConstant(k, State(), name).Some?
      modifies Parts()
      ensures Valid() && Some(State()) == NewConstant(k, old(State()), name)
    {
      Entry(name, 0, k.doConstant);
      var v := ds.PopTop();
      Comma(Unsigned(v));
    }

    // ----- control flow -----

    method PushAddress(a: nat)
      requires Valid()
      modifies ds, ds.items
      ensures Valid() && State() == WithTop(old(State()), Wrap(a))
    {
      ds.PushTop(Wrap(a));
    }

    /** Stores HERE at the address on top of the stack. */
    method ResolveHere()
      requires Valid() && PatchHere(State()).Some?
      modifies ds, ds.items, dict.bytes
      ensures Valid() && Some(State()) == PatchHere(old(State()))
    {
      var a := ds.PopTop();
      StoreTo(Unsigned(a), dict.here);
    }

    /** IF and WHILE */
    method Open(code: nat)
      requires Valid() && OpenBranch(State(), code).Some?
      modifies Parts()
      ensures Valid() && Some(State()) == OpenBranch(old(State()), code)
    {
      Comma(code);
      PushAddress(dict.here);
      Comma(0);
    }

    /** UNTIL, AGAIN and LOOP */
    method Back(code: nat)
      requires Valid() && BranchBack(State(), code).Some?
      modifies Parts()
      ensures Valid() && Some(State()) == BranchBack(old(State()), code)
    {
      var b := ds.PopTop();
      CommaPair(code, Unsigned(b));
    }

    method ElseWord()
      requires Valid() && ElseStep(k, State()).Some?
      modifies Parts()
      ensures Valid() && Some(State()) == ElseStep(k, old(State()))
    {
      Comma(k.branch);
      var e := dict.here;
      Comma(0);
      ResolveHere();
      PushAddress(e);
    }

    method RepeatWord()
      requires Valid() && RepeatStep(k, State()).Some?
      modifies Parts()
      ensures Valid() && Some(State()) == RepeatStep(k, old(State()))
    {
      var w := ds.PopTop();
      var b := ds.PopTop();
      CommaPair(k.branch, Unsigned(b));
      ds.PushTop(w);
      ResolveHere();
    }

    method ControlWord(c: Control)
      requires Valid() && ControlStep(k, State(), c).Some?
      modifies Parts()
      ensures Valid() && Some(State()) == ControlStep(k, old(State()), c)
    {
      match c
      case If => Open(k.zeroBranch);
      case Else => ElseWord();
      case Then => ResolveHere();
      case Begin => PushAddress(dict.here);
      case Until => Back(k.zeroBranch);
      case Again => Back(k.branch);
      case While => Open(k.zeroBranch);
      case Repeat => RepeatWord();
      case Do =>
        Comma(k.enter);
        PushAddress(dict.here);
      case Loop => Back(k.loop);
    }

    // ----- the outer interpreter -----

    method SkipBlank()
      requires Valid()
      modifies this`pos
      ensures Valid() && pos == SkipSpace(text, old(pos))
    {
      while pos < |text| && IsSpace(text[pos])
        invariant pos <= |text| && SkipSpace(text, pos) == SkipSpace(text, old(pos))
      {
        pos := pos + 1;
      }
    }

    method TakeWord() returns (token: Text)
      requires Valid()
      modifies this`pos
      ensures Valid() && pos == WordEnd(text, old(pos), MAX_TOKEN) && token == text[old(pos)..pos]
    {
      hide IsSpace;
      token := [];
      while pos < |text| && !IsSpace(text[pos]) && |token| < MAX_TOKEN
        invariant old(pos) <= pos <= |text| && token == text[old(pos)..pos] && |token| <= MAX_TOKEN
        invariant WordEnd(text, pos, MAX_TOKEN - |token|) == WordEnd(text, old(pos), MAX_TOKEN)
        decreases |text| - pos
      {
        OneMore(text, old(pos), pos);
        token := token + [text[pos]];
        pos := pos + 1;
      }
    }

    /** parse_word on the line in `text`. */
    method NextWord() returns (token: Text)
      requires Valid()
      modifies this`pos
      ensures Valid() && (token, pos) == ParseWord(text, old(pos))
    {
      SkipBlank();
      token := TakeWord();
    }

    /** try_parse_number */
    method ParseNumber(word: Text) returns (r: Option<I64>)
      ensures r == TryNumber(word, base)
    {
      var b, n := base, 0;
      if |word| >= 2 && word[0] == '0' && (word[1] == 'x' || word[1] == 'X') { b, n := 16, 2; }
      else if |word| >= 1 && word[0] == '$' { b, n := 16, 1; }
      else if |word| >= 1 && word[0] == '#' { b, n := 10, 1; }
      else if |word| >= 1 && word[0] == '%' { b, n := 2, 1; }
      var v, end := Strtol(word[n..], b);
      return if end == |word| - n && end != 0 then Some(v) else None;
    }

    /** Runs an entry found by the outer interpreter; the parsing words take their name from the line. */
    method RunToken(e: nat, ghost fuel: nat)
      requires Valid() && HeaderAt(State().dict.mem, e)
      requires ExecuteToken(k, State(), e, Tokens(text, pos), fuel).0.Some?
      modifies this`ip, this`mode, this`pos, Parts()
      ensures Valid() && pos >= old(pos)
      ensures (Some(State()), Tokens(text, pos)) == ExecuteToken(k, old(State()), e, old(Tokens(text, pos)), fuel)
    {
      hide StartColon, NewVariable, NewConstant, FinishColon, ControlStep, Execute, CommaTo, ParseWord;
      match RoutineOf(k, dict.bytes[..], e)
      case Some(ColonWord) =>
        var name := NextWord();
        if name != [] { Colon(name); }
      case Some(VariableWord) =>
        var name := NextWord();
        if name != [] { VariableNamed(name); } else { Comma(0); }
      case Some(ConstantWord) =>
        var name := NextWord();
        if name != [] { ConstantNamed(name); }
      case Some(SemicolonWord) => Semicolon();
      case Some(Flow(c)) => ControlWord(c);
      case _ => ForthExecute(e, fuel);
    }

    /** One token of the line, and whether the loop goes on. */
    method RunLineToken(token: Text, ghost fuel: nat) returns (go: bool)
      requires Valid() && Step(k, State(), [token] + Tokens(text, pos), fuel).0.Some?
      modifies this`ip, this`mode, this`pos, Parts()
      ensures Valid() && pos >= old(pos)
      ensures (Some(State()), if go then Tokens(text, pos) else []) ==
              Step(k, old(State()), old([token] + Tokens(text, pos)), fuel)
    {
      hide ExecuteToken, TryNumber, CommaTo, CommaTwo;
      assert ([token] + Tokens(text, pos))[1..] == Tokens(text, pos);
      var entry := dict.DictFind(token);
      if entry != 0 {
        if mode == Compile && !Immediate(FlagsOf(dict.bytes[..], entry)) { Comma(entry); }
        else { RunToken(entry, fuel); }
        return true;
      }
      var num := ParseNumber(token);
      match num
      case Some(v) =>
        if mode == Compile { CommaPair(k.doLiteral, Unsigned(v)); } else { ds.PushTop(v); }
        return true;
      case None =>
        mode := Interpret;
        return false;
    }

    /** forth_eval, when every word it executes returns within `fuel` iterations of the inner interpreter. */
    method ForthEval(line: Text, ghost fuel: nat)
      requires Valid() && Eval(k, State(), Tokens(line, 0), fuel).Some?
      modifies Repr()
      ensures Valid() && Some(State()) == Eval(k, old(State()), Tokens(line, 0), fuel)
    {
      hide Step, ParseWord;
      text, pos := line, 0;
      ghost var m := State();
      var go := true;
      while go
        invariant Valid() && text == line
        invariant Eval(k, State(), if go then Tokens(text, pos) else [], fuel) == Eval(k, m, Tokens(line, 0), fuel)
        decreases |text| - pos, go
      {
        ghost var before := pos;
        var token := NextWord();
        if token == [] {
          go := false;
        } else {
          assert Tokens(text, before) == [token] + Tokens(text, pos);
          go := RunLineToken(token, fuel);
        }
      }
    }

    // ----- SEE -----

    /** One item of a body: its token and a blank, and the address of the next item. */
    method SeeItem(a: nat) returns (shown: Text, next: nat)
      requires Valid() && S.SeeFrom(k, State().dict.mem, a).Some? && ReadCell(State().dict.mem, a) != SENTINEL
      ensures a < next && S.SeeFrom(k, State().dict.mem, next).Some?
      ensures S.SeeFrom(k, State().dict.mem, a) == Some(shown + S.SeeFrom(k, State().dict.mem, next).value)
    {
      hide S.Printed, NameOf;
      var cell := ReadCell(dict.bytes[..], a);
      if cell == k.doLiteral {
        return S.Printed(Signed(ReadCell(dict.bytes[..], a + 8))) + [' '], a + 16;
      }
      if BASE <= cell < LIMIT { return NameOf(dict.bytes[..], cell) + [' '], a + 8; }
      return "???" + [' '], a + 8;
    }

    /** What w_see prints for an entry. */
    method SeeEntry(e: nat) returns (out: Text)
      requires Valid() && HeaderAt(State().dict.mem, e) && S.SeeText(k, State().dict.mem, e).Some?
      ensures Some(out) == S.SeeText(k, State().dict.mem, e)
    {
      var code := ReadCell(dict.bytes[..], CodeField(dict.bytes[..], e));
      var head: Text := [':', ' '] + NameOf(dict.bytes[..], e) + [' '];
      if code == k.doVariable { return head + "VARIABLE\n"; }
      if code == k.doConstant { return head + "CONSTANT\n"; }
      if code != k.doColon { return head + "<native>\n"; }
      var pfa := ParamField(dict.bytes[..], e);
      var body := SeeBody(pfa);
      out := head + body;
    }

    /** w_see: the name comes from the line. */
    method SeeWord() returns (out: Text)
      requires Valid() && S.SeeAnswer(k, State().dict, ParseWord(text, pos).0).Some?
      modifies this`pos
      ensures Valid() && pos == ParseWord(text, old(pos)).1
      ensures Some(out) == S.SeeAnswer(k, State().dict, ParseWord(text, old(pos)).0)
    {
      hide S.SeeText, Find, ParseWord;
      var name := NextWord();
      if name == [] { return []; }
      var entry := dict.DictFind(name);
      if entry == 0 { return " ? Not found\n"; }
      out := SeeEntry(entry);
    }

    method SeeBody(start: nat) returns (out: Text)
      requires Valid() && S.SeeFrom(k, State().dict.mem, start).Some?
      ensures Some(out) == S.SeeFrom(k, State().dict.mem, start)
    {
      hide S.Printed;
      out := [];
      var pfa := start;
      assert out + S.SeeFrom(k, dict.bytes[..], pfa).value == S.SeeFrom(k, dict.bytes[..], pfa).value;
      while ReadCell(dict.bytes[..], pfa) != SENTINEL
        invariant S.SeeFrom(k, dict.bytes[..], pfa).Some?
        invariant Some(out + S.SeeFrom(k, dict.bytes[..], pfa).value) == S.SeeFrom(k, dict.bytes[..], start)
        decreases LIMIT - pfa
      {
        ghost var before := out;
        var shown, next := SeeItem(pfa);
        out := out + shown;
        assert before + (shown + S.SeeFrom(k, dict.bytes[..], next).value)
            == out + S.SeeFrom(k, dict.bytes[..], next).value;
        pfa := next;
      }
      out := out + ";\n";
    }
  }

  lemma OneMore(s: Text, i: nat, j: nat)
    requires i <= j < |s|
    ensures s[i..j] + [s[j]] == s[i..j + 1]
  {
  }
}
