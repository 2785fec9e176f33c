/** vm/core/forth.c, lines 189-231: the stack and arithmetic words as the C functions that run them. */
module Primitives {
  import opened Numbers
  import opened Stacks
  import opened ForthWords

  type DataStack = BoundedStack<I64>

  ghost predicate Ok(s: DataStack)
    reads s
  {
    s.Valid() && s.zero == 0
  }

  /** The entries of a data stack. */
  function Entries(s: DataStack): Data
    reads s, s.items
    requires s.Valid()
  {
    s.Contents()
  }

  method Swap(s: DataStack)
    requires Ok(s)
    modifies s, s.items
    ensures Ok(s) && Entries(s) == Shuffle(Op.Swap, old(Entries(s)))
  {
    var b := s.PopTop();
    var a := s.PopTop();
    s.PushTop(b);
    s.PushTop(a);
  }

  method Rot(s: DataStack)
    requires Ok(s)
    modifies s, s.items
    ensures Ok(s) && Entries(s) == Shuffle(Op.Rot, old(Entries(s)))
  {
    var c := s.PopTop();
    var b := s.PopTop();
    var a := s.PopTop();
    s.PushTop(b);
    s.PushTop(c);
    s.PushTop(a);
  }

  method Nip(s: DataStack)
    requires Ok(s)
    modifies s, s.items
    ensures Ok(s) && Entries(s) == Shuffle(Op.Nip, old(Entries(s)))
  {
    var t := s.PopTop();
    var u := s.PopTop();
    s.PushTop(t);
  }

  method Tuck(s: DataStack)
    requires Ok(s)
    modifies s, s.items
    ensures Ok(s) && Entries(s) == Shuffle(Op.Tuck, old(Entries(s)))
  {
    var b := s.PopTop();
    var a := s.PopTop();
    s.PushTop(b);
    s.PushTop(a);
    s.PushTop(b);
  }

  method TwoDup(s: DataStack)
    requires Ok(s)
    modifies s, s.items
    ensures Ok(s) && Entries(s) == Shuffle(Op.TwoDup, old(Entries(s)))
  {
    var b := s.PeekTop();
    var a := s.PickAt(1);
    s.PushTop(a);
    s.PushTop(b);
  }

  method TwoSwap(s: DataStack)
    requires Ok(s)
    modifies s, s.items
    ensures Ok(s) && Entries(s) == Shuffle(Op.TwoSwap, old(Entries(s)))
  {
    var d := s.PopTop();
    var c := s.PopTop();
    var b := s.PopTop();
    var a := s.PopTop();
    s.PushTop(c);
    s.PushTop(d);
    s.PushTop(a);
    s.PushTop(b);
  }

  method QDup(s: DataStack)
    requires Ok(s)
    modifies s, s.items
    ensures Ok(s) && Entries(s) == Shuffle(Op.QDup, old(Entries(s)))
  {
    var t := s.PeekTop();
    if t != 0 { s.PushTop(t); }
  }

  method StackWord(op: Op, s: DataStack)
    requires Ok(s) && Shuffles(op)
    modifies s, s.items
    ensures Ok(s) && Entries(s) == Shuffle(op, old(Entries(s)))
  {
    match op
    case Dup => var t := s.PeekTop(); s.PushTop(t);
    case Drop => var t := s.PopTop();
    case Swap => Swap(s);
    case Over => var t := s.PickAt(1); s.PushTop(t);
    case Rot => Rot(s);
    case Nip => Nip(s);
    case Tuck => Tuck(s);
    case TwoDup => TwoDup(s);
    case TwoDrop => var t := s.PopTop(); var u := s.PopTop();
    case TwoSwap => TwoSwap(s);
    case QDup => QDup(s);
    case Depth => s.PushTop(s.depth);
  }

  method UnaryWord(op: Op, s: DataStack)
    requires Ok(s) && OneOperand(op)
    modifies s, s.items
    ensures Ok(s) && Entries(s) == Push(Rest(old(Entries(s))), Unary(op, Top(old(Entries(s)))))
  {
    var v := s.PopTop();
    s.PushTop(Unary(op, v));
  }

  method BinaryWord(op: Op, s: DataStack)
    requires Ok(s) && !Shuffles(op) && !Divides(op) && !OneOperand(op)
    modifies s, s.items
    ensures Ok(s)
    ensures var t := old(Entries(s)); Entries(s) == Push(Rest(Rest(t)), Binary(op, Top(Rest(t)), Top(t)))
  {
    var b := s.PopTop();
    var a := s.PopTop();
    s.PushTop(Binary(op, a, b));
  }

  method DivisionWord(op: Op, s: DataStack)
    requires Ok(s) && Divides(op) && Divide(op, Entries(s)).Some?
    modifies s, s.items
    ensures Ok(s) && Some(Entries(s)) == Divide(op, old(Entries(s)))
  {
    var b := s.PopTop();
    if b == 0 {
      s.PushTop(0);
      if op == DivMod { s.PushTop(0); }
      return;
    }
    var a := s.PopTop();
    QuotientFits(a, b);
    RemainderFits(a, b);
    if op != Div { s.PushTop(Remainder(a, b)); }
    if op != Mod { s.PushTop(Quotient(a, b)); }
  }

  /** Any of them, as long as the processor does not trap. */
  method Calculate(op: Op, s: DataStack)
    requires Ok(s) && Apply(op, Entries(s)).Some?
    modifies s, s.items
    ensures Ok(s) && Some(Entries(s)) == Apply(op, old(Entries(s)))
  {
    if Shuffles(op) { StackWord(op, s); }
    else if Divides(op) { DivisionWord(op, s); }
    else if OneOperand(op) { UnaryWord(op, s); }
    else { BinaryWord(op, s); }
  }
}
