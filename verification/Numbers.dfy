/** kernel/utils/stdlib.c: printing and parsing of 64-bit numbers. */
module Numbers {
  import opened Width

  // ----- characters -----

  predicate IsSpace(c: char) { c == ' ' || c == '\t' || c == '\n' || c == '\r' || c == '\U{0C}' || c == '\U{0B}' }

  function DigitChar(d: nat): char
    requires d < 36
  {
    if d < 10 then ('0' as int + d) as char else ('a' as int + d - 10) as char
  }

  /** Value of a digit or letter, or -1. */
  function DigitValue(c: char): int {
    if '0' <= c <= '9' then c as int - '0' as int
    else if 'a' <= c <= 'z' then c as int - 'a' as int + 10
    else if 'A' <= c <= 'Z' then c as int - 'A' as int + 10
    else -1
  }

  lemma DigitRoundTrip(d: nat)
    requires d < 36
    ensures DigitValue(DigitChar(d)) == d && !IsSpace(DigitChar(d))
    ensures DigitChar(d) != '-' && DigitChar(d) != '+'
  {
  }

  // ----- printing -----

  /** The numeral of v, most significant digit first. */
  function Numeral(v: nat, base: nat): (s: seq<char>)
    requires 2 <= base <= 36
    ensures |s| >= 1
    decreases v
  {
    if v < base then [DigitChar(v)]
    else
      QuotientSmaller(v, base);
      Numeral(v / base, base) + [DigitChar(v % base)]
  }

  lemma QuotientSmaller(v: nat, base: nat)
    requires 2 <= base && 0 < v
    ensures v / base < v
  {
    Division(v, base, v / base, v % base);
    Scaled(v / base, 2, base);
  }

  function Unsigned(v: int): nat
    requires -TWO63 <= v < TWO64
  {
    if v < 0 then v + TWO64 else v
  }

  /** Two's complement reading of a 64-bit word. */
  function Signed(u: nat): (v: int)
    requires u < TWO64
    ensures -TWO63 <= v < TWO63
  {
    if u < TWO63 then u else u - TWO64
  }

  /** What ltoa prints. */
  function SignedNumeral(v: int, base: nat): seq<char>
    requires -TWO63 <= v < TWO63 && 2 <= base <= 36
  {
    if v < 0 && base == 10 then ['-'] + Numeral(-v, 10) else Numeral(Unsigned(v), base)
  }

  // ----- parsing -----

  function SkipSpace(s: seq<char>, i: nat): (j: nat)
    requires i <= |s|
    ensures i <= j <= |s| && (j < |s| ==> !IsSpace(s[j]))
    decreases |s| - i
  {
    if i < |s| && IsSpace(s[i]) then SkipSpace(s, i + 1) else i
  }

  predicate DigitAt(s: seq<char>, i: nat, base: int) {
    i < |s| && 0 <= DigitValue(s[i]) < base
  }

  /** The digit loop of strtol and strtoul: the value accumulated in 64 bits, and where it stops. */
  function Scan(s: seq<char>, i: nat, base: int, acc: nat): (r: (nat, nat))
    requires i <= |s| && acc < TWO64
    ensures i <= r.1 <= |s| && r.0 < TWO64
    decreases |s| - i
  {
    if DigitAt(s, i, base) then Scan(s, i + 1, base, (acc * base + DigitValue(s[i])) % TWO64) else (acc, i)
  }

  /** Prefix handling for base 0: the base to use and where the digits start. */
  function Prefix(s: seq<char>, i: nat, base: int): (r: (int, nat))
    requires i <= |s|
    ensures i <= r.1 <= |s|
  {
    if base != 0 then (base, i)
    else if i < |s| && s[i] == '0' then
      if i + 1 < |s| && (s[i + 1] == 'x' || s[i + 1] == 'X') then (16, i + 2) else (8, i + 1)
    else (10, i)
  }

  function StrtoulSpec(s: seq<char>, base: int): (nat, nat) {
    var i := SkipSpace(s, 0);
    var j := if i < |s| && s[i] == '+' then i + 1 else i;
    var (b, k) := Prefix(s, j, base);
    Scan(s, k, b, 0)
  }

  /** Signed overflow is modelled as two's complement wrap-around. */
  function StrtolSpec(s: seq<char>, base: int): (int, nat) {
    var i := SkipSpace(s, 0);
    var j := if i < |s| && (s[i] == '-' || s[i] == '+') then i + 1 else i;
    var (b, k) := Prefix(s, j, base);
    var (u, e) := Scan(s, k, b, 0);
    (Signed(if i < |s| && s[i] == '-' then (TWO64 - u) % TWO64 else u), e)
  }

  // ----- capitals -----

  /** d is the capital of the letter c. */
  predicate Capital(c: char, d: char) { 'a' <= c <= 'z' && d as int == c as int - 32 }

  /** Two texts that differ in the case of letters at most. */
  predicate SameButCase(s: seq<char>, t: seq<char>) {
    |s| == |t| && forall i :: 0 <= i < |s| ==> s[i] == t[i] || Capital(s[i], t[i]) || Capital(t[i], s[i])
  }

  lemma {:induction false} CaseSkip(s: seq<char>, t: seq<char>, i: nat)
    requires SameButCase(s, t) && i <= |s|
    ensures SkipSpace(s, i) == SkipSpace(t, i)
    decreases |s| - i
  {
    if i < |s| && IsSpace(s[i]) { CaseSkip(s, t, i + 1); }
  }

  lemma {:induction false} CaseScan(s: seq<char>, t: seq<char>, i: nat, base: int, acc: nat)
    requires SameButCase(s, t) && i <= |s| && acc < TWO64
    ensures Scan(s, i, base, acc) == Scan(t, i, base, acc)
    decreases |s| - i
  {
    if i < |s| { assert DigitValue(s[i]) == DigitValue(t[i]); }
    if DigitAt(s, i, base) { CaseScan(s, t, i + 1, base, (acc * base + DigitValue(s[i])) % TWO64); }
  }

  /** The case of letters, digits and prefix alike, does not matter to strtol and strtoul. */
  lemma CaseIgnored(s: seq<char>, t: seq<char>, base: int)
    requires SameButCase(s, t)
    ensures StrtolSpec(s, base) == StrtolSpec(t, base) && StrtoulSpec(s, base) == StrtoulSpec(t, base)
  {
    hide Scan, SkipSpace;
    CaseSkip(s, t, 0);
    forall i, b | 0 <= i <= |s| ensures Scan(s, i, b, 0) == Scan(t, i, b, 0) { CaseScan(s, t, i, b, 0); }
  }

  // ----- the round trip -----

  function Pow(b: nat, k: nat): nat { if k == 0 then 1 else b * Pow(b, k - 1) }

  /** A string of digits that is read to its end: one more digit is read after it. */
  lemma {:induction false} ScanOneMore(s: seq<char>, c: char, i: nat, base: nat, acc: nat)
    requires i <= |s| && acc < TWO64 && Scan(s, i, base, acc).1 == |s| && 0 <= DigitValue(c) < base
    ensures Scan(s + [c], i, base, acc) == ((Scan(s, i, base, acc).0 * base + DigitValue(c)) % TWO64, |s| + 1)
    decreases |s| - i
  {
    var t := s + [c];
    if i < |s| {
      assert t[i] == s[i];
      ScanOneMore(s, c, i + 1, base, (acc * base + DigitValue(s[i])) % TWO64);
    } else {
      assert t[i] == c;
      assert Scan(t, i + 1, base, (acc * base + DigitValue(c)) % TWO64).1 == i + 1;
    }
  }

  lemma Division(v: nat, base: nat, q: nat, r: nat)
    requires 0 < base && q == v / base && r == v % base
    ensures v == q * base + r && r < base
  {
  }

  lemma SmallMod(v: nat)
    requires v < TWO64
    ensures v % TWO64 == v
  {
  }

  lemma WrapStep(q: nat, base: nat, r: nat)
    ensures (q % TWO64 * base + r) % TWO64 == (q * base + r) % TWO64
  {
    var k, m := q / TWO64, q % TWO64;
    Division(q, TWO64, k, m);
    Spread(q, k, m, base, r);
    Rounds(m * base + r, k * base);
  }

  lemma Spread(q: nat, k: nat, m: nat, base: nat, r: nat)
    requires q == k * TWO64 + m
    ensures q * base + r == m * base + r + k * base * TWO64
  {
  }

  lemma Rounds(x: nat, n: nat)
    ensures (x + n * TWO64) % TWO64 == x % TWO64
  {
  }

  /** The digit loop inverts the digit printer modulo 2^64. */
  lemma {:induction false} ScanWraps(v: nat, base: nat)
    requires 2 <= base <= 36
    ensures Scan(Numeral(v, base), 0, base, 0) == (v % TWO64, |Numeral(v, base)|)
    decreases v
  {
    if v < base {
      DigitRoundTrip(v);
      ScanOneMore([], DigitChar(v), 0, base, 0);
      assert [] + [DigitChar(v)] == Numeral(v, base);
    } else {
      QuotientSmaller(v, base);
      DigitRoundTrip(v % base);
      var q, r := v / base, v % base;
      Division(v, base, q, r);
      ScanWraps(q, base);
      ScanOneMore(Numeral(q, base), DigitChar(r), 0, base, 0);
      WrapStep(q, base, r);
    }
  }

  lemma ScanNumeral(v: nat, base: nat)
    requires 2 <= base <= 36 && v < TWO64
    ensures Scan(Numeral(v, base), 0, base, 0) == (v, |Numeral(v, base)|)
  {
    ScanWraps(v, base);
    SmallMod(v);
  }

  lemma {:induction false} NumeralChars(v: nat, base: nat, i: nat)
    requires 2 <= base <= 36 && i < |Numeral(v, base)|
    ensures 0 <= DigitValue(Numeral(v, base)[i]) < base && !IsSpace(Numeral(v, base)[i])
    ensures Numeral(v, base)[i] != '-' && Numeral(v, base)[i] != '+'
    decreases v
  {
    hide DigitChar, DigitValue, IsSpace;
    if v < base {
      DigitRoundTrip(v);
    } else {
      QuotientSmaller(v, base);
      DigitRoundTrip(v % base);
      if i < |Numeral(v / base, base)| { NumeralChars(v / base, base, i); }
    }
  }

  /** For every 64-bit value and every base from 2 to 36, strtoul reads back what ultoa printed, all of it,
      and just so when any of its letters are written as capitals. */
  lemma StrtoulInvertsUltoa(v: nat, base: nat, t: seq<char>)
    requires v < TWO64 && 2 <= base <= 36 && SameButCase(Numeral(v, base), t)
    ensures StrtoulSpec(t, base) == (v, |Numeral(v, base)|)
  {
    NumeralChars(v, base, 0);
    ScanNumeral(v, base);
    CaseIgnored(Numeral(v, base), t, base);
  }

  lemma {:induction false} ScanAfter(p: seq<char>, s: seq<char>, i: nat, base: nat, acc: nat)
    requires i <= |s| && acc < TWO64
    ensures Scan(p + s, |p| + i, base, acc) == (Scan(s, i, base, acc).0, |p| + Scan(s, i, base, acc).1)
    decreases |s| - i
  {
    assert i < |s| ==> (p + s)[|p| + i] == s[i];
    if DigitAt(s, i, base) {
      ScanAfter(p, s, i + 1, base, (acc * base + DigitValue(s[i])) % TWO64);
    }
  }

  /** The six characters that isspace knows. */
  predicate Blanks(s: seq<char>) {
    forall i :: 0 <= i < |s| ==> s[i] in [' ', '\t', '\n', '\r', '\U{0C}', '\U{0B}']
  }

  /** Leading blanks are skipped, and nothing else is. */
  lemma {:induction false} SkipBlank(p: seq<char>, s: seq<char>, i: nat)
    requires i <= |p| && Blanks(p) && (s != [] ==> !Blanks([s[0]]))
    ensures SkipSpace(p + s, i) == |p|
    decreases |p| - i
  {
    if i < |p| {
      assert (p + s)[i] == p[i];
      SkipBlank(p, s, i + 1);
    } else if s != [] {
      assert (p + s)[i] == [s[0]][0];
    }
  }

  lemma NotBlank(c: char)
    requires !IsSpace(c)
    ensures !Blanks([c])
  {
    assert [c][0] == c;
  }

  /** Blanks, a sign or none, and a numeral, in any base: strtol reads the signed value and stops at the end. */
  lemma StrtolReads(blanks: seq<char>, sign: seq<char>, v: int, base: nat)
    requires Blanks(blanks) && sign in ["", "+", "-"] && 2 <= base <= 36
    requires 0 <= v && if sign == "-" then v <= TWO63 else v < TWO63
    ensures var s := blanks + (sign + Numeral(v, base));
            StrtolSpec(s, base) == (if sign == "-" then -v else v, |s|)
  {
    hide Numeral, Scan, SkipSpace;
    var n := Numeral(v, base);
    NumeralChars(v, base, 0);
    NotBlank((sign + n)[0]);
    SkipBlank(blanks, sign + n, 0);
    ScanNumeral(v, base);
    ScanAfter(blanks + sign, n, 0, base, 0);
    assert blanks + (sign + n) == (blanks + sign) + n;
  }

  /** Blanks, a plus sign or none, and a numeral of any length: strtoul reads the value modulo 2^64 and stops at the
      end. */
  lemma StrtoulReads(blanks: seq<char>, sign: seq<char>, v: nat, base: nat)
    requires Blanks(blanks) && sign in ["", "+"] && 2 <= base <= 36
    ensures var s := blanks + (sign + Numeral(v, base)); StrtoulSpec(s, base) == (v % TWO64, |s|)
  {
    hide Numeral, Scan, SkipSpace;
    var n := Numeral(v, base);
    NumeralChars(v, base, 0);
    NotBlank((sign + n)[0]);
    SkipBlank(blanks, sign + n, 0);
    ScanWraps(v, base);
    ScanAfter(blanks + sign, n, 0, base, 0);
    assert blanks + (sign + n) == (blanks + sign) + n;
  }

  /** With base 0 the prefix tells the base: 0x or 0X hexadecimal, 0 octal, none decimal. */
  lemma BaseFromPrefix(v: nat)
    requires v < TWO64
    ensures StrtoulSpec("0x" + Numeral(v, 16), 0) == (v, 2 + |Numeral(v, 16)|)
    ensures StrtoulSpec("0X" + Numeral(v, 16), 0) == (v, 2 + |Numeral(v, 16)|)
    ensures StrtoulSpec("0" + Numeral(v, 8), 0) == (v, 1 + |Numeral(v, 8)|)
    ensures v > 0 ==> StrtoulSpec(Numeral(v, 10), 0) == (v, |Numeral(v, 10)|)
  {
    hide Numeral, Scan;
    NumeralChars(v, 8, 0);
    NumeralChars(v, 10, 0);
    ScanNumeral(v, 16);
    ScanNumeral(v, 8);
    ScanNumeral(v, 10);
    ScanAfter("0x", Numeral(v, 16), 0, 16, 0);
    ScanAfter("0X", Numeral(v, 16), 0, 16, 0);
    ScanAfter("0", Numeral(v, 8), 0, 8, 0);
    if v > 0 { LeadingDigit(v, 10); }
  }

  lemma {:induction false} LeadingDigit(v: nat, base: nat)
    requires 0 < v && 2 <= base <= 36
    ensures Numeral(v, base)[0] != '0'
    decreases v
  {
    if v >= base {
      QuotientSmaller(v, base);
      LeadingDigit(v / base, base);
    }
  }

  /** What ltoa prints in a base other than 10 is the numeral of the two's complement, and strtoul reads that. */
  lemma StrtoulReadsLtoa(v: int, base: nat)
    requires -TWO63 <= v < TWO63 && 2 <= base <= 36 && (base == 10 ==> v >= 0)
    ensures StrtoulSpec(SignedNumeral(v, base), base) == (Unsigned(v), |SignedNumeral(v, base)|)
    ensures Signed(StrtoulSpec(SignedNumeral(v, base), base).0) == v
  {
    StrtoulInvertsUltoa(Unsigned(v), base, Numeral(Unsigned(v), base));
  }

  /** In base 10, strtol reads back what ltoa printed, all of it.  For the smallest value both functions
      overflow a signed long, and the result rests on that wrapping around. */
  lemma StrtolInvertsLtoa(v: int)
    requires -TWO63 <= v < TWO63
    ensures StrtolSpec(SignedNumeral(v, 10), 10) == (v, |SignedNumeral(v, 10)|)
  {
    hide Numeral, Scan;
    if v < 0 {
      ScanNumeral(-v, 10);
      ScanAfter("-", Numeral(-v, 10), 0, 10, 0);
    } else {
      NumeralChars(v, 10, 0);
      ScanNumeral(v, 10);
    }
  }

  /** The number of digits is the least k >= 1 with base^k > v. */
  lemma {:induction false} NumeralLength(v: nat, base: nat)
    requires 2 <= base <= 36
    ensures v < Pow(base, |Numeral(v, base)|)
    ensures |Numeral(v, base)| > 1 ==> Pow(base, |Numeral(v, base)| - 1) <= v
    decreases v
  {
    if v < base {
      assert Pow(base, 1) == base * Pow(base, 0);
    } else {
      QuotientSmaller(v, base);
      var q, r := v / base, v % base;
      Division(v, base, q, r);
      NumeralLength(q, base);
      var k := |Numeral(q, base)|;
      DigitsUp(base, k, q, v);
      if k > 1 { DigitsDown(base, k - 1, q, v); }
    }
  }

  lemma DigitsUp(base: nat, k: nat, q: nat, v: nat)
    requires q < Pow(base, k) && v < q * base + base
    ensures v < Pow(base, k + 1)
  {
    Scaled(base, q + 1, Pow(base, k));
  }

  lemma DigitsDown(base: nat, k: nat, q: nat, v: nat)
    requires Pow(base, k) <= q && q * base <= v
    ensures Pow(base, k + 1) <= v
  {
    Scaled(base, Pow(base, k), q);
  }

  lemma Scaled(b: nat, x: nat, y: nat)
    requires x <= y
    ensures b * x <= b * y && b * (x - 1) + b == b * x
  {
  }

  lemma {:induction false} PowMonotone(b: nat, j: nat, k: nat)
    requires 2 <= b && j <= k
    ensures 1 <= Pow(b, j) <= Pow(b, k)
    decreases k
  {
    if j < k {
      PowMonotone(b, j, k - 1);
      assert Pow(b, k) == b * Pow(b, k - 1);
    } else if k > 0 {
      PowMonotone(b, k - 1, k - 1);
    }
  }

  lemma {:induction false} PowSum(b: nat, j: nat, k: nat)
    ensures Pow(b, j + k) == Pow(b, j) * Pow(b, k)
  {
    if j > 0 {
      PowSum(b, j - 1, k);
      Regroup(b, Pow(b, j - 1), Pow(b, k));
    }
  }

  lemma Regroup(a: nat, b: nat, c: nat)
    ensures a * (b * c) == a * b * c
  {
  }

  lemma Pow16()
    ensures Pow(16, 16) == TWO64
  {
    PowSum(16, 1, 1); PowSum(16, 2, 2); PowSum(16, 4, 4); PowSum(16, 8, 8);
  }

  lemma Pow10()
    ensures Pow(10, 19) == 10_000_000_000_000_000_000 && Pow(10, 20) == 100_000_000_000_000_000_000
  {
    PowSum(10, 1, 1); PowSum(10, 2, 2); PowSum(10, 4, 1); PowSum(10, 5, 5); PowSum(10, 5, 4);
    PowSum(10, 10, 9); PowSum(10, 19, 1);
  }

  /** So 17 bytes hold any hexadecimal numeral, 21 any unsigned and any signed decimal one, end mark included. */
  lemma BufferSizes(v: int)
    requires -TWO63 <= v < TWO64
    ensures |Numeral(Unsigned(v), 16)| + 1 <= 17
    ensures |Numeral(Unsigned(v), 10)| + 1 <= 21
    ensures v < TWO63 ==> |SignedNumeral(v, 10)| + 1 <= 21
  {
    Pow16();
    Pow10();
    AtMost(Unsigned(v), 16, 16);
    AtMost(Unsigned(v), 10, 20);
    if v < 0 { AtMost(-v, 10, 19); }
  }

  lemma AtMost(v: nat, base: nat, k: nat)
    requires 2 <= base <= 36 && 1 <= k && v < Pow(base, k)
    ensures |Numeral(v, base)| <= k
  {
    NumeralLength(v, base);
    if |Numeral(v, base)| > k {
      PowMonotone(base, k, |Numeral(v, base)| - 1);
    }
  }

  // ----- the loops -----

  function Reverse(s: seq<char>): (r: seq<char>)
    ensures |r| == |s|
  {
    if s == [] then [] else Reverse(s[1..]) + [s[0]]
  }

  lemma {:induction false} ReverseAt(s: seq<char>, k: nat)
    requires k < |s|
    ensures Reverse(s)[k] == s[|s| - 1 - k]
  {
    if k < |s| - 1 { ReverseAt(s[1..], k); }
  }

  lemma {:induction false} ReverseAppend(s: seq<char>, c: char)
    ensures Reverse(s + [c]) == [c] + Reverse(s)
  {
    if s != [] {
      assert (s + [c])[1..] == s[1..] + [c];
      ReverseAppend(s[1..], c);
    }
  }

  /** The do-while loop of ultoa and ltoa: digits from str[start] on, least significant first. */
  method FillDigits(value: nat, str: array<char>, start: nat, base: nat) returns (p: nat)
    requires 2 <= base <= 36 && start + |Numeral(value, base)| <= str.Length
    modifies str
    ensures p == start + |Numeral(value, base)|
    ensures Reverse(str[start..p]) == Numeral(value, base)
    ensures str[..start] == old(str[..start])
  {
    hide Numeral, DigitChar, Reverse;
    p := start;
    var u: nat := value;
    ghost var tail := [];
    assert str[start..p] == [];
    while true
      invariant start <= p && p + |Numeral(u, base)| == start + |Numeral(value, base)|
      invariant Numeral(value, base) == Numeral(u, base) + tail && tail == Reverse(str[start..p])
      invariant str[..start] == old(str[..start])
      decreases u
    {
      var q, r := u / base, u % base;
      DigitStep(value, u, base, q, r, tail);
      ReverseAppend(str[start..p], DigitChar(r));
      ghost var done := str[start..p];
      str[p] := DigitChar(r);
      p := p + 1;
      assert str[start..p] == done + [DigitChar(r)];
      tail := [DigitChar(r)] + tail;
      u := q;
      if u == 0 { return; }
    }
  }

  /** Moving the last digit of u over to the digits already written. */
  lemma DigitStep(value: nat, u: nat, base: nat, q: nat, r: nat, tail: seq<char>)
    requires 2 <= base <= 36 && q == u / base && r == u % base
    requires Numeral(value, base) == Numeral(u, base) + tail
    ensures q == 0 ==> Numeral(value, base) == [DigitChar(r)] + tail && |Numeral(u, base)| == 1
    ensures q > 0 ==> q < u && |Numeral(u, base)| == |Numeral(q, base)| + 1
    ensures q > 0 ==> Numeral(value, base) == Numeral(q, base) + ([DigitChar(r)] + tail)
  {
    Division(u, base, q, r);
    if u < base {
      SmallQuotient(u, base);
    } else {
      QuotientSmaller(u, base);
      assert q > 0;
      assert Numeral(u, base) == Numeral(q, base) + [DigitChar(r)];
      assert Numeral(u, base) + tail == Numeral(q, base) + ([DigitChar(r)] + tail);
    }
  }

  lemma SmallQuotient(u: nat, base: nat)
    requires u < base
    ensures u / base == 0 && u % base == u
  {
  }

  /** The reversing loop of ultoa and ltoa on str[start..end]. */
  method ReverseDigits(str: array<char>, start: nat, end: nat)
    requires start < end <= str.Length
    modifies str
    ensures str[start..end] == Reverse(old(str[start..end]))
    ensures str[..start] == old(str[..start]) && str[end..] == old(str[end..])
  {
    SwapEnds(str, start, end);
    MirroredIsReverse(str[..], old(str[..]), start, end);
    assert old(str[..])[start..end] == old(str[start..end]) && str[..][start..end] == str[start..end];
  }

  ghost predicate Mirrored(a: seq<char>, b: seq<char>, start: nat, end: nat)
    requires start <= end <= |a| == |b|
  {
    forall k :: start <= k < end ==> a[k] == b[start + end - 1 - k]
  }

  lemma MirroredIsReverse(a: seq<char>, b: seq<char>, start: nat, end: nat)
    requires start <= end <= |a| == |b| && Mirrored(a, b, start, end)
    ensures a[start..end] == Reverse(b[start..end])
  {
    forall k | 0 <= k < end - start ensures a[start..end][k] == Reverse(b[start..end])[k] {
      ReverseAt(b[start..end], k);
    }
  }

  method SwapEnds(str: array<char>, start: nat, end: nat)
    requires start < end <= str.Length
    modifies str
    ensures Mirrored(str[..], old(str[..]), start, end)
    ensures str[..start] == old(str[..start]) && str[end..] == old(str[end..])
  {
    var p1, p := start, end - 1;
    while p1 < p
      invariant start <= p1 <= p + 1 <= end && p1 + p == start + end - 1
      invariant forall k :: start <= k < p1 || p < k < end ==> str[k] == old(str[start + end - 1 - k])
      invariant forall k :: p1 <= k <= p ==> str[k] == old(str[k])
      invariant forall k :: 0 <= k < start || end <= k < str.Length ==> str[k] == old(str[k])
    {
      str[p1], str[p] := str[p], str[p1];
      p1, p := p1 + 1, p - 1;
    }
  }

  /** ultoa */
  method Ultoa(value: nat, str: array<char>, base: int)
    requires value < TWO64 && str.Length > 0
    requires 2 <= base <= 36 ==> str.Length > |Numeral(value, base)|
    modifies str
    ensures 2 <= base <= 36 ==> CString(str[..], Numeral(value, base))
    ensures !(2 <= base <= 36) ==> CString(str[..], [])
  {
    if base < 2 || base > 36 {
      str[0] := '\0';
      return;
    }
    var p := FillDigits(value, str, 0, base);
    str[p] := '\0';
    ReverseDigits(str, 0, p);
    assert str[p] == str[p..][0];
  }

  /** ltoa */
  method Ltoa(value: int, str: array<char>, base: int)
    requires -TWO63 <= value < TWO63 && str.Length > 0
    requires 2 <= base <= 36 ==> str.Length > |SignedNumeral(value, base)|
    modifies str
    ensures 2 <= base <= 36 ==> CString(str[..], SignedNumeral(value, base))
    ensures !(2 <= base <= 36) ==> CString(str[..], [])
  {
    if base < 2 || base > 36 {
      str[0] := '\0';
      return;
    }
    var start, u := 0, Unsigned(value);
    if value < 0 && base == 10 {
      str[0] := '-';
      start, u := 1, -value;
    }
    ghost var sign := str[..start];
    var p := FillDigits(u, str, start, base);
    str[p] := '\0';
    ReverseDigits(str, start, p);
    assert str[p] == str[p..][0];
    assert str[..p] == str[..start] + str[start..p];
  }

  /** The array begins with the text s and the end mark. */
  ghost predicate CString(a: seq<char>, s: seq<char>) {
    |s| < |a| && a[..|s|] == s && a[|s|] == '\0'
  }

  /** The digit loop shared by strtol and strtoul. */
  method ScanDigits(s: seq<char>, i: nat, base: int) returns (value: nat, end: nat)
    requires i <= |s|
    ensures (value, end) == Scan(s, i, base, 0)
  {
    value, end := 0, i;
    while end < |s|
      invariant end <= |s| && value < TWO64
      invariant Scan(s, end, base, value) == Scan(s, i, base, 0)
    {
      var digit := DigitValue(s[end]);
      if digit < 0 { return; }
      if digit >= base { return; }
      value := (value * base + digit) % TWO64;
      end := end + 1;
    }
  }

  method SkipBlanks(s: seq<char>) returns (i: nat)
    ensures i == SkipSpace(s, 0) && i <= |s|
  {
    i := 0;
    while i < |s| && IsSpace(s[i])
      invariant i <= |s| && SkipSpace(s, i) == SkipSpace(s, 0)
    {
      i := i + 1;
    }
  }

  /** strtoul of a string without its end mark; `end` is the offset of *endptr. */
  method Strtoul(s: seq<char>, base: int) returns (value: nat, end: nat)
    ensures (value, end) == StrtoulSpec(s, base)
  {
    var i := SkipBlanks(s);
    if i < |s| && s[i] == '+' { i := i + 1; }
    var p := Prefix(s, i, base);
    value, end := ScanDigits(s, p.1, p.0);
  }

  /** strtol */
  method Strtol(s: seq<char>, base: int) returns (value: int, end: nat)
    ensures (value, end) == StrtolSpec(s, base)
  {
    var i := SkipBlanks(s);
    var negative := i < |s| && s[i] == '-';
    if i < |s| && (s[i] == '-' || s[i] == '+') { i := i + 1; }
    var p := Prefix(s, i, base);
    var u;
    u, end := ScanDigits(s, p.1, p.0);
    value := Signed(if negative then (TWO64 - u) % TWO64 else u);
  }
}
