/**
  vm/dictionary/dictionary.c: the byte layout of the dictionary, and the list of words it stands for.
 */
module Dictionary {
  import opened Cells
  import opened Numbers
  import opened Width

  const F_IMMEDIATE := 0x80
  const F_HIDDEN := 0x40
  const MAX_NAME := 31

  // ----- the bytes -----

  datatype Space = Space(mem: Region, here: nat, latest: nat)

  /** The dictionary as dict_init leaves it. */
  function Blank(): Space { Space(seq(SIZE, _ => '\0'), BASE, 0) }

  function AlignUp(a: nat): nat { (a + 7) / 8 * 8 }

  function Align(d: Space): Space { d.(here := AlignUp(d.here)) }

  predicate HasCell(d: Space) { InCell(AlignUp(d.here)) }

  function PutCell(d: Space, v: nat): Space
    requires InCell(d.here)
  {
    d.(mem := WriteCell(d.mem, d.here, v), here := d.here + 8)
  }

  /** dict_comma */
  function Comma(d: Space, v: nat): Space
    requires HasCell(d)
  {
    PutCell(Align(d), v)
  }

  /** The length dict_create stores: strlen kept in one byte, then capped. */
  function NameLen(name: Text): (n: nat)
    ensures n <= MAX_NAME
  {
    var n := |name| % 256;
    if n > MAX_NAME then MAX_NAME else n
  }

  function Clip(name: Text): (s: Text)
    ensures |s| == NameLen(name)
  {
    SmallLen(name);
    name[..NameLen(name)]
  }

  lemma SmallLen(name: Text)
    ensures NameLen(name) <= |name| && (|name| <= MAX_NAME ==> NameLen(name) == |name|)
  {
  }

  /** What is kept of a name: its first characters, as many as the length modulo 256 says, but 31 at most. */
  lemma ClipKeeps(name: Text, q: nat, r: nat)
    requires |name| == 256 * q + r && r < 256
    ensures Clip(name) <= name && |Clip(name)| == if r < 31 then r else 31
  {
  }

  function TopBits(flags: nat): nat { flags % 256 / 32 * 32 }

  predicate HasHeader(d: Space, name: Text) {
    BASE <= d.here && AlignUp(AlignUp(d.here) + 9 + NameLen(name)) + 8 <= LIMIT
  }

  function WriteText(mem: Region, a: int, s: Text): Region
    requires BASE <= a && a + |s| <= LIMIT
  {
    mem[..a - BASE] + s + mem[a - BASE + |s|..]
  }

  function PutText(d: Space, s: Text): Space
    requires BASE <= d.here && d.here + |s| <= LIMIT
  {
    d.(mem := WriteText(d.mem, d.here, s), here := d.here + |s|)
  }

  /** dict_create */
  function Create(d: Space, name: Text, flags: nat): Space
    requires HasHeader(d, name) && d.latest < TWO64
  {
    var linked := PutCell(Align(d), d.latest);
    var marked := PutText(linked, [(TopBits(flags) + NameLen(name)) as char]);
    Align(PutText(marked, Clip(name))).(latest := AlignUp(d.here))
  }

  // ----- the field getters -----

  predicate HeaderAt(mem: Region, e: nat) {
    BASE <= e && e + 9 <= LIMIT && e + 9 + mem[e + 8 - BASE] as int % 32 <= LIMIT
  }

  function FlagsLen(mem: Region, e: nat): (b: nat)
    requires HeaderAt(mem, e)
    ensures b < 256
  {
    mem[e + 8 - BASE] as int
  }

  function LenOf(mem: Region, e: nat): nat
    requires HeaderAt(mem, e)
  {
    FlagsLen(mem, e) % 32
  }

  function FlagsOf(mem: Region, e: nat): nat
    requires HeaderAt(mem, e)
  {
    TopBits(FlagsLen(mem, e))
  }

  function NameOf(mem: Region, e: nat): Text
    requires HeaderAt(mem, e)
  {
    mem[e + 9 - BASE..e + 9 - BASE + LenOf(mem, e)]
  }

  function CodeField(mem: Region, e: nat): (a: nat)
    requires HeaderAt(mem, e)
    ensures BASE <= a < LIMIT + 8
  {
    AlignUp(e + 9 + LenOf(mem, e))
  }

  function ParamField(mem: Region, e: nat): nat
    requires HeaderAt(mem, e)
  {
    CodeField(mem, e) + 8
  }

  predicate Hidden(flags: nat) { flags / 64 % 2 == 1 }
  predicate Immediate(flags: nat) { flags / 128 % 2 == 1 }

  function Unhidden(flags: nat): nat { if Hidden(flags) then flags - 64 else flags }

  /** w_semicolon's last step: clear F_HIDDEN in the newest entry. */
  function Reveal(d: Space): Space
    requires HeaderAt(d.mem, d.latest)
  {
    d.(mem := WriteText(d.mem, d.latest + 8, [Unhidden(FlagsLen(d.mem, d.latest)) as char]))
  }

  // ----- the words -----

  /** An entry: its address, its stored name and flags, its code field, the cells after it, and
      after those `room` cells that the program may overwrite. */
  datatype Word = Word(addr: nat, name: Text, flags: nat, code: nat, cells: seq<nat>, room: nat)

  function CodeAddr(w: Word): (a: nat)
    ensures w.addr + 9 + |w.name| <= a <= w.addr + 16 + |w.name| && a % 8 == 0
  {
    AlignUp(w.addr + 9 + |w.name|)
  }
  function CellAddr(w: Word, j: nat): nat { CodeAddr(w) + 8 + 8 * j }
  function End(w: Word): nat { CellAddr(w, |w.cells| + w.room) }

  ghost predicate WordOk(w: Word) {
    && BASE <= w.addr && w.addr % 8 == 0 && End(w) <= LIMIT && |w.name| <= MAX_NAME
    && w.flags < 256 && w.flags % 32 == 0 && w.code < TWO64
  }

  ghost predicate CellIs(mem: Region, w: Word, j: nat)
    requires j < |w.cells|
  {
    InCell(CellAddr(w, j)) && ReadCell(mem, CellAddr(w, j)) == w.cells[j]
  }

  /** The header of w and its code field are in memory, linked to `link`. */
  ghost predicate HeadIs(mem: Region, w: Word, link: nat)
    requires WordOk(w)
  {
    && ReadCell(mem, w.addr) == link
    && mem[w.addr + 8 - BASE] as int == w.flags + |w.name|
    && mem[w.addr + 9 - BASE..w.addr + 9 - BASE + |w.name|] == w.name
    && ReadCell(mem, CodeAddr(w)) == w.code
  }

  ghost predicate CellsAre(mem: Region, w: Word) {
    forall j :: 0 <= j < |w.cells| ==> CellIs(mem, w, j)
  }

  /** All the bytes of w are in memory. */
  ghost predicate Stored(mem: Region, w: Word, link: nat) {
    WordOk(w) && HeadIs(mem, w, link) && CellsAre(mem, w)
  }

  /** What the i-th word links to: the word before it, or null. */
  function LinkTo(words: seq<Word>, i: nat): nat
    requires i <= |words|
  {
    if i == 0 then 0 else words[i - 1].addr
  }

  function HereOf(words: seq<Word>): nat { if words == [] then BASE else End(words[|words| - 1]) }

  ghost predicate Before(words: seq<Word>, i: nat, j: nat)
    requires i < |words| && j < |words|
  {
    End(words[i]) <= words[j].addr
  }

  ghost predicate StoredAt(mem: Region, words: seq<Word>, i: nat)
    requires i < |words|
  {
    Stored(mem, words[i], LinkTo(words, i))
  }

  /** The memory holds exactly these words, oldest first, one after the other. */
  ghost predicate Image(d: Space, words: seq<Word>) {
    && (forall i :: 0 <= i < |words| ==> StoredAt(d.mem, words, i))
    && (forall i, j :: 0 <= i < j < |words| ==> Before(words, i, j))
    && d.latest == LinkTo(words, |words|) && d.here == HereOf(words)
  }

  // ----- lookup -----

  function Upper(c: Byte): Byte {
    if 'a' <= c <= 'z' then (c as int - 32) as char else c
  }

  predicate SameLetter(s: Text, t: Text, i: nat)
    requires i < |s| && i < |t|
  {
    Upper(s[i]) == Upper(t[i])
  }

  predicate SameName(s: Text, t: Text) {
    |s| == |t| && forall i :: 0 <= i < |s| ==> SameLetter(s, t, i)
  }

  predicate Answers(w: Word, name: Text) { !Hidden(w.flags) && SameName(w.name, name) }

  /** The newest of the first n words that answers to the name, or -1. */
  function LookupIn(words: seq<Word>, n: nat, name: Text): (r: int)
    requires n <= |words|
    ensures -1 <= r < n
    ensures r >= 0 ==> Answers(words[r], name)
    ensures forall i :: r < i < n ==> !Answers(words[i], name)
  {
    if n == 0 then -1 else if Answers(words[n - 1], name) then n - 1 else LookupIn(words, n - 1, name)
  }

  function Lookup(words: seq<Word>, name: Text): (r: int)
    ensures -1 <= r < |words|
  {
    LookupIn(words, |words|, name)
  }

  /** How the search of dict_find ends: at an entry, at a null link, or following links that do not descend. */
  datatype Finding = Entry(e: nat) | Nothing | Lost

  /** dict_find from entry e on. */
  function Find(mem: Region, e: nat, name: Text): (f: Finding)
    ensures f.Entry? ==> HeaderAt(mem, f.e)
    decreases e
  {
    if e == 0 then Nothing
    else if !HeaderAt(mem, e) then Lost
    else if !Hidden(FlagsLen(mem, e)) && SameName(NameOf(mem, e), name) then Entry(e)
    else
      var link := ReadCell(mem, e);
      if link < e then Find(mem, link, name) else Lost
  }

  // ----- the getters read what was written -----

  lemma FlagsByte(flags: nat, n: nat)
    requires flags < 256 && flags % 32 == 0 && n <= MAX_NAME
    ensures flags + n < 256 && (flags + n) % 32 == n && TopBits(flags + n) == flags
    ensures Hidden(flags + n) == Hidden(flags) && Immediate(flags + n) == Immediate(flags)
  {
    TopBitsValue(flags);
  }

  lemma TopBitsValue(flags: nat)
    requires flags < 256 && flags % 32 == 0
    ensures flags in {0, 32, 64, 96, 128, 160, 192, 224}
  {
  }

  /** Every getter finds the field of the word that is stored there. */
  lemma Getters(mem: Region, w: Word, link: nat)
    requires Stored(mem, w, link)
    ensures HeaderAt(mem, w.addr) && ReadCell(mem, w.addr) == link
    ensures FlagsOf(mem, w.addr) == w.flags && NameOf(mem, w.addr) == w.name
    ensures Hidden(FlagsLen(mem, w.addr)) == Hidden(w.flags)
    ensures CodeField(mem, w.addr) == CodeAddr(w) && ReadCell(mem, CodeField(mem, w.addr)) == w.code
    ensures ParamField(mem, w.addr) == CellAddr(w, 0)
  {
    FlagsByte(w.flags, |w.name|);
  }

  // ----- what a change of memory leaves alone -----

  lemma HeadSame(m: Region, n: Region, w: Word, link: nat)
    requires WordOk(w) && HeadIs(m, w, link) && Same(m, n, w.addr, CodeAddr(w) + 8)
    ensures HeadIs(n, w, link)
  {
    SamePart(m, n, w.addr, CodeAddr(w) + 8, w.addr, w.addr + 8);
    SameCell(m, n, w.addr);
    SamePart(m, n, w.addr, CodeAddr(w) + 8, CodeAddr(w), CodeAddr(w) + 8);
    SameCell(m, n, CodeAddr(w));
    var o := w.addr + 9 - BASE;
    assert m[o..o + |w.name|] == n[o..o + |w.name|];
  }

  lemma CellKept(m: Region, n: Region, w: Word, j: nat)
    requires j < |w.cells| && CellIs(m, w, j) && Same(m, n, CellAddr(w, j), CellAddr(w, j) + 8)
    ensures CellIs(n, w, j)
  {
    SameCell(m, n, CellAddr(w, j));
  }

  lemma CellsSame(m: Region, n: Region, w: Word)
    requires CellsAre(m, w) && Same(m, n, CellAddr(w, 0), CellAddr(w, |w.cells|))
    ensures CellsAre(n, w)
  {
    forall j | 0 <= j < |w.cells| ensures CellIs(n, w, j) {
      SamePart(m, n, CellAddr(w, 0), CellAddr(w, |w.cells|), CellAddr(w, j), CellAddr(w, j) + 8);
      CellKept(m, n, w, j);
    }
  }

  lemma StoredSame(m: Region, n: Region, w: Word, link: nat)
    requires Stored(m, w, link) && Same(m, n, w.addr, End(w))
    ensures Stored(n, w, link)
  {
    HeadSame(m, n, w, link);
    CellsSame(m, n, w);
  }

  /** A write into one word leaves every other word as it was. */
  lemma OthersSame(d: Space, words: seq<Word>, n: Region, k: nat, from: int, to: int)
    requires Image(d, words) && k < |words| && words[k].addr <= from && to <= End(words[k])
    requires Same(d.mem, n, BASE, from) && Same(d.mem, n, to, LIMIT)
    ensures forall i :: 0 <= i < |words| && i != k ==> StoredAt(n, words, i)
  {
    forall i | 0 <= i < |words| && i != k ensures StoredAt(n, words, i) {
      assert StoredAt(d.mem, words, i);
      if i < k { assert Before(words, i, k); } else { assert Before(words, k, i); }
      StoredSame(d.mem, n, words[i], LinkTo(words, i));
    }
  }

  ghost predicate Below(d: Space, words: seq<Word>, i: nat)
    requires i < |words|
  {
    End(words[i]) <= d.here
  }

  /** Writing above the words leaves them all as they were. */
  lemma AllSame(d: Space, words: seq<Word>, n: Region)
    requires Image(d, words) && Same(d.mem, n, BASE, d.here)
    ensures forall i :: 0 <= i < |words| ==> StoredAt(n, words, i) && Below(d, words, i)
  {
    forall i | 0 <= i < |words| ensures StoredAt(n, words, i) && Below(d, words, i) {
      assert StoredAt(d.mem, words, i);
      if i < |words| - 1 { assert Before(words, i, |words| - 1); }
      StoredSame(d.mem, n, words[i], LinkTo(words, i));
    }
  }

  /** Replacing one word by another that starts and ends within its place keeps the image. */
  lemma ReplaceImage(d: Space, words: seq<Word>, n: Region, k: nat, w: Word)
    requires Image(d, words) && k < |words| && w.addr == words[k].addr
    requires if k == |words| - 1 then true else End(w) <= End(words[k])
    requires forall i :: 0 <= i < |words| && i != k ==> StoredAt(n, words, i)
    requires Stored(n, w, LinkTo(words, k))
    ensures Image(Space(n, if k == |words| - 1 then End(w) else d.here, d.latest), words[k := w])
  {
    var ws := words[k := w];
    forall i | 0 <= i < |ws| ensures StoredAt(n, ws, i) {
      assert LinkTo(ws, i) == LinkTo(words, i);
      if i != k { assert StoredAt(n, words, i); }
    }
    forall i, j | 0 <= i < j < |ws| ensures Before(ws, i, j) { assert Before(words, i, j); }
  }

  // ----- each operation on the bytes is one on the list -----

  function Appended(words: seq<Word>, v: nat): seq<Word>
    requires words != []
  {
    var k := |words| - 1;
    words[k := words[k].(cells := words[k].cells + [v])]
  }

  lemma TopAligned(d: Space, words: seq<Word>)
    requires Image(d, words)
    ensures BASE <= d.here <= LIMIT && AlignUp(d.here) == d.here
  {
    if words != [] { assert StoredAt(d.mem, words, |words| - 1); }
  }

  /** dict_comma adds a cell to the newest word. */
  lemma CommaImage(d: Space, words: seq<Word>, v: nat)
    requires Image(d, words) && words != [] && words[|words| - 1].room == 0
    requires v < TWO64 && d.here + 8 <= LIMIT
    ensures HasCell(d) && Image(Comma(d, v), Appended(words, v))
  {
    hide HeadIs, CellsAre, AlignUp, Same, WriteCell, ReadCell;
    TopAligned(d, words);
    var k, n := |words| - 1, Comma(d, v).mem;
    WriteElsewhere(d.mem, d.here, v, BASE, d.here);
    AllSame(d, words, n);
    assert StoredAt(n, words, k) && Below(d, words, k);
    ReadWritten(d.mem, d.here, v);
    OneMoreCell(n, words[k], LinkTo(words, k), v);
    ReplaceImage(d, words, n, k, words[k].(cells := words[k].cells + [v]));
  }

  lemma OneMoreCell(m: Region, w: Word, link: nat, v: nat)
    requires Stored(m, w, link) && w.room == 0 && InCell(End(w)) && ReadCell(m, End(w)) == v
    ensures Stored(m, w.(cells := w.cells + [v]), link)
  {
    var u := w.(cells := w.cells + [v]);
    forall j | 0 <= j < |u.cells| ensures CellIs(m, u, j) {
      assert j < |w.cells| ==> CellIs(m, w, j);
    }
  }

  function Fresh(here: nat, name: Text, flags: nat, code: nat): Word {
    Word(here, Clip(name), TopBits(flags), code, [], 0)
  }

  /** dict_create and dict_set_code put a new word on the list. */
  lemma CreateImage(d: Space, words: seq<Word>, name: Text, flags: nat, code: nat)
    requires Image(d, words) && HasHeader(d, name) && code < TWO64
    ensures d.latest < TWO64 && InCell(Create(d, name, flags).here)
    ensures Image(PutCell(Create(d, name, flags), code), words + [Fresh(d.here, name, flags, code)])
  {
    TopAligned(d, words);
    if words != [] { assert StoredAt(d.mem, words, |words| - 1); }
    CreateStores(d, name, flags, code);
    var s := PutCell(Create(d, name, flags), code);
    AllSame(d, words, s.mem);
    AppendImage(d, words, s.mem, Fresh(d.here, name, flags, code));
  }

  lemma FlagTops()
    ensures TopBits(0) == 0 && TopBits(F_IMMEDIATE) == 0x80 && TopBits(F_HIDDEN) == 0x40
  {
  }

  /** The byte behind the link: the length of the name in its low five bits, 0x80 for an immediate word, 0x40 for
      one that is not finished. */
  lemma FlagBytes(d: Space, words: seq<Word>, name: Text, flags: nat, code: nat)
    requires Image(d, words) && HasHeader(d, name) && code < TWO64
    requires flags == 0 || flags == F_IMMEDIATE || flags == F_HIDDEN
    ensures d.latest < TWO64 && InCell(Create(d, name, flags).here)
    ensures var c := PutCell(Create(d, name, flags), code);
            && BASE <= c.latest && c.latest + 9 <= LIMIT
            && c.mem[c.latest + 8 - BASE] as int ==
                 |Clip(name)| + (if flags == F_IMMEDIATE then 0x80 else if flags == F_HIDDEN then 0x40 else 0)
  {
    hide Create, PutCell, CellsAre, Before, AlignUp, ReadCell, TopBits, Clip;
    CreateImage(d, words, name, flags, code);
    FlagTops();
    var ws := words + [Fresh(d.here, name, flags, code)];
    assert StoredAt(PutCell(Create(d, name, flags), code).mem, ws, |words|);
  }

  lemma AppendImage(d: Space, words: seq<Word>, n: Region, w: Word)
    requires Image(d, words) && w.addr == d.here && Stored(n, w, d.latest)
    requires forall i :: 0 <= i < |words| ==> StoredAt(n, words, i) && Below(d, words, i)
    ensures Image(Space(n, End(w), w.addr), words + [w])
  {
    var ws := words + [w];
    forall i | 0 <= i < |ws| ensures StoredAt(n, ws, i) {
      if i < |words| { assert StoredAt(n, words, i) && LinkTo(ws, i) == LinkTo(words, i); }
    }
    forall i, j | 0 <= i < j < |ws| ensures Before(ws, i, j) {
      if j < |words| { assert Before(words, i, j); } else { assert Below(d, words, i); }
    }
  }

  lemma CreateStores(d: Space, name: Text, flags: nat, code: nat)
    requires HasHeader(d, name) && code < TWO64 && d.latest < TWO64 && AlignUp(d.here) == d.here
    ensures InCell(Create(d, name, flags).here)
    ensures var s, w := PutCell(Create(d, name, flags), code), Fresh(d.here, name, flags, code);
            s.here == End(w) && Same(d.mem, s.mem, BASE, d.here) && Stored(s.mem, w, d.latest)
  {
    var c, w := Create(d, name, flags), Fresh(d.here, name, flags, code);
    HeaderWritten(d, name, flags, code);
    CodeWritten(c.mem, w, d.latest);
    SameTwice(d.mem, c.mem, PutCell(c, code).mem, BASE, d.here);
  }

  lemma SameTwice(m: Region, n: Region, o: Region, from: int, to: int)
    requires Same(m, n, from, to) && Same(n, o, from, to)
    ensures Same(m, o, from, to)
  {
  }

  /** The link, the flags byte and the name of w are in memory. */
  ghost predicate Named(mem: Region, w: Word, link: nat)
    requires WordOk(w)
  {
    && ReadCell(mem, w.addr) == link
    && mem[w.addr + 8 - BASE] as int == w.flags + |w.name|
    && mem[w.addr + 9 - BASE..w.addr + 9 - BASE + |w.name|] == w.name
  }

  lemma CodeWritten(m: Region, w: Word, link: nat)
    requires WordOk(w) && Named(m, w, link)
    ensures var n := WriteCell(m, CodeAddr(w), w.code); HeadIs(n, w, link) && Same(m, n, BASE, w.addr)
  {
    var a := CodeAddr(w);
    var n := WriteCell(m, a, w.code);
    ReadWritten(m, a, w.code);
    WriteElsewhere(m, a, w.code, BASE, a);
    SamePart(m, n, BASE, a, w.addr, w.addr + 8);
    SamePart(m, n, BASE, a, BASE, w.addr);
    SameCell(m, n, w.addr);
    var o := w.addr + 9 - BASE;
    assert n[o..o + |w.name|] == m[o..o + |w.name|];
  }

  lemma HeaderWritten(d: Space, name: Text, flags: nat, code: nat)
    requires code < TWO64 && HasHeader(d, name) && d.latest < TWO64 && AlignUp(d.here) == d.here
    ensures var c, w := Create(d, name, flags), Fresh(d.here, name, flags, code);
            c.here == CodeAddr(w) && Same(d.mem, c.mem, BASE, d.here) && WordOk(w) && Named(c.mem, w, d.latest)
  {
    var e, c := d.here, Create(d, name, flags);
    var linked := WriteCell(d.mem, e, d.latest);
    ReadWritten(d.mem, e, d.latest);
    WriteElsewhere(d.mem, e, d.latest, BASE, e);
    assert Same(linked, c.mem, BASE, e + 8);
    SamePart(linked, c.mem, BASE, e + 8, e, e + 8);
    SameCell(linked, c.mem, e);
  }

  function Unhide(words: seq<Word>): seq<Word>
    requires words != []
  {
    var k := |words| - 1;
    words[k := words[k].(flags := Unhidden(words[k].flags))]
  }

  /** Clearing the hidden bit changes nothing else. */
  lemma RevealImage(d: Space, words: seq<Word>)
    requires Image(d, words) && words != []
    ensures HeaderAt(d.mem, d.latest) && Image(Reveal(d), Unhide(words))
  {
    hide HeadIs, CellsAre, AlignUp, Same, WriteText, Hidden, Immediate, Unhidden;
    var k := |words| - 1;
    var w := words[k];
    assert StoredAt(d.mem, words, k);
    Getters(d.mem, w, LinkTo(words, k));
    FlagsByte(w.flags, |w.name|);
    var b := Unhidden(FlagsLen(d.mem, w.addr));
    UnhiddenByte(w.flags, |w.name|);
    FlagsRead(d.mem, w, LinkTo(words, k));
    ByteFits(FlagsLen(d.mem, w.addr));
    var n, u := Reveal(d).mem, w.(flags := Unhidden(w.flags));
    ByteElsewhere(d.mem, w.addr + 8, b as char, BASE, w.addr + 8);
    ByteElsewhere(d.mem, w.addr + 8, b as char, w.addr + 9, LIMIT);
    SamePart(d.mem, n, BASE, w.addr + 8, w.addr, w.addr + 8);
    SamePart(d.mem, n, w.addr + 9, LIMIT, w.addr + 9, End(w));
    OthersSame(d, words, n, k, w.addr + 8, w.addr + 9);
    RevealStores(d.mem, n, w, LinkTo(words, k));
    ReplaceImage(d, words, n, k, u);
  }

  lemma FlagsRead(mem: Region, w: Word, link: nat)
    requires Stored(mem, w, link) && HeaderAt(mem, w.addr)
    ensures FlagsLen(mem, w.addr) == w.flags + |w.name|
  {
  }

  lemma ByteFits(b: nat)
    requires b < 256
    ensures 0 <= Unhidden(b) < 256
  {
  }

  lemma ByteElsewhere(mem: Region, a: nat, c: Byte, from: nat, to: nat)
    requires BASE <= a < LIMIT && (to <= a || a < from)
    ensures Same(mem, WriteText(mem, a, [c]), from, to) && WriteText(mem, a, [c])[a - BASE] == c
  {
  }

  lemma UnhiddenByte(flags: nat, n: nat)
    requires flags < 256 && flags % 32 == 0 && n <= MAX_NAME
    ensures Unhidden(flags + n) == Unhidden(flags) + n
    ensures Unhidden(flags) % 32 == 0 && !Hidden(Unhidden(flags)) && Immediate(Unhidden(flags)) == Immediate(flags)
  {
  }

  lemma RevealStores(m: Region, n: Region, w: Word, link: nat)
    requires Stored(m, w, link) && Same(m, n, w.addr, w.addr + 8) && Same(m, n, w.addr + 9, End(w))
    requires n[w.addr + 8 - BASE] as int == Unhidden(w.flags) + |w.name|
    requires Unhidden(w.flags) % 32 == 0
    ensures Stored(n, w.(flags := Unhidden(w.flags)), link)
  {
    var u := w.(flags := Unhidden(w.flags));
    RevealHead(m, n, w, link);
    CellsSame(m, n, w);
    assert forall j :: 0 <= j < |w.cells| && CellIs(n, w, j) ==> CellIs(n, u, j);
  }

  lemma RevealHead(m: Region, n: Region, w: Word, link: nat)
    requires WordOk(w) && HeadIs(m, w, link)
    requires Same(m, n, w.addr, w.addr + 8) && Same(m, n, w.addr + 9, End(w))
    requires n[w.addr + 8 - BASE] as int == Unhidden(w.flags) + |w.name|
    requires Unhidden(w.flags) % 32 == 0
    ensures WordOk(w.(flags := Unhidden(w.flags))) && HeadIs(n, w.(flags := Unhidden(w.flags)), link)
  {
    hide AlignUp, ReadCell, Same, Unhidden;
    SameCell(m, n, w.addr);
    SamePart(m, n, w.addr + 9, End(w), CodeAddr(w), CodeAddr(w) + 8);
    SameCell(m, n, CodeAddr(w));
    SamePart(m, n, w.addr + 9, End(w), w.addr + 9, w.addr + 9 + |w.name|);
    SameText(m, n, w.addr + 9, |w.name|);
    UnhiddenSmall(w.flags);
  }

  lemma UnhiddenSmall(flags: nat)
    requires flags < 256
    ensures Unhidden(flags) < 256
  {
  }

  lemma SameText(m: Region, n: Region, a: nat, len: nat)
    requires BASE <= a && a + len <= LIMIT && Same(m, n, a, a + len)
    ensures m[a - BASE..a - BASE + len] == n[a - BASE..a - BASE + len]
  {
  }

  /** Overwriting a cell of a word, as back-patching does. */
  lemma PatchImage(d: Space, words: seq<Word>, k: nat, j: nat, v: nat)
    requires Image(d, words) && k < |words| && j < |words[k].cells| && v < TWO64
    ensures InCell(CellAddr(words[k], j))
    ensures var w := words[k];
            Image(d.(mem := WriteCell(d.mem, CellAddr(w, j), v)), words[k := w.(cells := w.cells[j := v])])
  {
    hide HeadIs, AlignUp, Same, WriteCell, ReadCell;
    var w := words[k];
    assert StoredAt(d.mem, words, k);
    assert CellIs(d.mem, w, j);
    var a := CellAddr(w, j);
    WriteElsewhere(d.mem, a, v, BASE, a);
    WriteElsewhere(d.mem, a, v, a + 8, LIMIT);
    var n, u := WriteCell(d.mem, a, v), w.(cells := w.cells[j := v]);
    OthersSame(d, words, n, k, a, a + 8);
    ReadWritten(d.mem, a, v);
    PatchStores(d.mem, w, LinkTo(words, k), j, v);
    ReplaceImage(d, words, n, k, u);
    assert k < |words| - 1 || End(u) == d.here;
  }

  lemma PatchStores(m: Region, w: Word, link: nat, j: nat, v: nat)
    requires Stored(m, w, link) && j < |w.cells| && v < TWO64
    ensures InCell(CellAddr(w, j))
    ensures Stored(WriteCell(m, CellAddr(w, j), v), w.(cells := w.cells[j := v]), link)
  {
    var a := CellAddr(w, j);
    var n, u := WriteCell(m, a, v), w.(cells := w.cells[j := v]);
    WriteElsewhere(m, a, v, w.addr, CodeAddr(w) + 8);
    HeadSame(m, n, w, link);
    forall i | 0 <= i < |u.cells| ensures CellIs(n, u, i) {
      CellPatched(m, w, j, v, i);
    }
  }

  lemma CellPatched(m: Region, w: Word, j: nat, v: nat, i: nat)
    requires j < |w.cells| && i < |w.cells| && CellIs(m, w, i) && InCell(CellAddr(w, j)) && v < TWO64
    ensures CellIs(WriteCell(m, CellAddr(w, j), v), w.(cells := w.cells[j := v]), i)
  {
    hide ReadCell, WriteCell;
    var a := CellAddr(w, j);
    if i == j {
      ReadWritten(m, a, v);
    } else {
      WriteElsewhere(m, a, v, CellAddr(w, i), CellAddr(w, i) + 8);
      CellKept(m, WriteCell(m, a, v), w, i);
    }
  }

  /** Overwriting a cell of a word's room changes no word. */
  lemma StoreImage(d: Space, words: seq<Word>, k: nat, j: nat, v: nat)
    requires Image(d, words) && k < |words| && |words[k].cells| <= j < |words[k].cells| + words[k].room
    ensures InCell(CellAddr(words[k], j)) && Image(d.(mem := WriteCell(d.mem, CellAddr(words[k], j), v)), words)
  {
    var w := words[k];
    assert StoredAt(d.mem, words, k);
    var a := CellAddr(w, j);
    var n := WriteCell(d.mem, a, v);
    OthersSame(d, words, n, k, a, a + 8);
    WriteElsewhere(d.mem, a, v, w.addr, a);
    SamePart(d.mem, n, w.addr, a, w.addr, CodeAddr(w) + 8);
    HeadSame(d.mem, n, w, LinkTo(words, k));
    CellsSame(d.mem, n, w);
    ReplaceImage(d, words, n, k, w);
    assert words[k := w] == words && (k < |words| - 1 || End(w) == d.here);
  }

  // ----- dict_find -----

  lemma {:induction false} FindFrom(mem: Region, words: seq<Word>, n: nat, name: Text)
    requires n <= |words|
    requires forall i :: 0 <= i < |words| ==> StoredAt(mem, words, i)
    requires forall i, j :: 0 <= i < j < |words| ==> Before(words, i, j)
    ensures var r := LookupIn(words, n, name);
            Find(mem, LinkTo(words, n), name) == if r < 0 then Nothing else Entry(words[r].addr)
  {
    if n > 0 {
      var w := words[n - 1];
      assert StoredAt(mem, words, n - 1);
      Getters(mem, w, LinkTo(words, n - 1));
      if n > 1 { assert Before(words, n - 2, n - 1); }
      FindFrom(mem, words, n - 1, name);
    }
  }

  /** dict_find returns the newest visible word of that name, ignoring case, and null if there is none. */
  lemma FindIsLookup(d: Space, words: seq<Word>, name: Text)
    requires Image(d, words)
    ensures var r := Lookup(words, name);
            Find(d.mem, d.latest, name) == if r < 0 then Nothing else Entry(words[r].addr)
  {
    FindFrom(d.mem, words, |words|, name);
  }

  /** Names agree exactly when they have the same length and differ in the case of letters at most. */
  lemma NamesAgree(s: Text, t: Text)
    ensures SameName(s, t) <==> SameButCase(s, t)
  {
    if SameName(s, t) {
      forall i | 0 <= i < |s| ensures s[i] == t[i] || Capital(s[i], t[i]) || Capital(t[i], s[i]) {
        assert SameLetter(s, t, i);
      }
    }
  }

  /** Two spellings of a name answer alike, */
  lemma SpellingsAnswer(w: Word, s: Text, t: Text)
    requires SameButCase(s, t)
    ensures Answers(w, s) <==> Answers(w, t)
  {
    NamesAgree(s, t);
    SpellingsName(w.name, s, t);
  }

  lemma SpellingsName(n: Text, s: Text, t: Text)
    requires SameName(s, t)
    ensures SameName(n, s) <==> SameName(n, t)
  {
    if |n| == |s| {
      forall i | 0 <= i < |n| ensures SameLetter(n, s, i) <==> SameLetter(n, t, i) { assert SameLetter(s, t, i); }
    }
  }

  /** so both find the same word, */
  lemma {:induction false} SpellingsLookup(words: seq<Word>, n: nat, s: Text, t: Text)
    requires n <= |words| && SameButCase(s, t)
    ensures LookupIn(words, n, s) == LookupIn(words, n, t)
  {
    if n > 0 {
      SpellingsAnswer(words[n - 1], s, t);
      SpellingsLookup(words, n - 1, s, t);
    }
  }

  /** in any memory. */
  lemma {:induction false} SpellingsFind(mem: Region, e: nat, s: Text, t: Text)
    requires SameButCase(s, t)
    ensures Find(mem, e, s) == Find(mem, e, t)
    decreases e
  {
    if e != 0 && HeaderAt(mem, e) {
      NamesAgree(s, t);
      SpellingsName(NameOf(mem, e), s, t);
      if ReadCell(mem, e) < e { SpellingsFind(mem, ReadCell(mem, e), s, t); }
    }
  }

  /** A word just created answers to the name it was created with exactly when that has at most 31 characters. */
  lemma FoundByItsName(d: Space, words: seq<Word>, name: Text, flags: nat, code: nat)
    requires Image(d, words) && !Hidden(TopBits(flags))
    ensures Lookup(words + [Fresh(d.here, name, flags, code)], name) == |words| <==> |name| <= 31
  {
    SmallLen(name);
    if |name| <= MAX_NAME { assert Clip(name) == name; }
  }

  // ----- every run of definitions -----

  /** What the compiler does to the dictionary: start an entry, add a cell, make the newest entry visible. */
  datatype Op = Define(name: Text, flags: nat, code: nat) | Append(v: nat) | Finish

  predicate Fits(d: Space, op: Op) {
    match op
    case Define(name, _, code) => HasHeader(d, name) && d.latest < TWO64 && code < TWO64
    case Append(v) => d.latest != 0 && BASE <= d.here && d.here + 8 <= LIMIT && v < TWO64
    case Finish => d.latest != 0
  }

  function Perform(d: Space, op: Op): Space {
    match op
    case Define(name, flags, code) =>
      if Fits(d, op) && InCell(Create(d, name, flags).here) then PutCell(Create(d, name, flags), code) else d
    case Append(v) => if HasCell(d) then Comma(d, v) else d
    case Finish => if HeaderAt(d.mem, d.latest) then Reveal(d) else d
  }

  function Described(words: seq<Word>, op: Op): seq<Word>
    requires op.Define? || words != []
  {
    match op
    case Define(name, flags, code) => words + [Fresh(HereOf(words), name, flags, code)]
    case Append(v) => Appended(words, v)
    case Finish => Unhide(words)
  }

  predicate AllFit(d: Space, ops: seq<Op>)
    decreases |ops|
  {
    ops != [] ==> Fits(d, ops[0]) && AllFit(Perform(d, ops[0]), ops[1..])
  }

  function PerformAll(d: Space, ops: seq<Op>): Space
    decreases |ops|
  {
    if ops == [] then d else PerformAll(Perform(d, ops[0]), ops[1..])
  }

  function DescribeAll(words: seq<Word>, ops: seq<Op>): seq<Word>
    decreases |ops|
  {
    if ops == [] then words
    else if ops[0].Define? || words != [] then DescribeAll(Described(words, ops[0]), ops[1..])
    else words
  }

  ghost predicate NoRoom(words: seq<Word>) { words == [] || words[|words| - 1].room == 0 }

  /** Within the dictionary's space, every run of definitions leaves in memory exactly the list that
      the same run builds from the words there were. */
  lemma {:induction false} RunRefines(d: Space, words: seq<Word>, ops: seq<Op>)
    requires Image(d, words) && NoRoom(words) && AllFit(d, ops)
    ensures Image(PerformAll(d, ops), DescribeAll(words, ops))
    decreases |ops|
  {
    if ops != [] {
      StepRefines(d, words, ops[0]);
      RunRefines(Perform(d, ops[0]), Described(words, ops[0]), ops[1..]);
    }
  }

  lemma StepRefines(d: Space, words: seq<Word>, op: Op)
    requires Image(d, words) && NoRoom(words) && Fits(d, op)
    ensures (op.Define? || words != []) && NoRoom(Described(words, op))
    ensures Image(Perform(d, op), Described(words, op))
  {
    match op
    case Define(name, flags, code) => CreateImage(d, words, name, flags, code);
    case Append(v) => CommaImage(d, words, v);
    case Finish => RevealImage(d, words);
  }

  /** Links go strictly down to null, and no two entries share a byte. */
  lemma LinksDescend(d: Space, words: seq<Word>, i: nat, j: nat)
    requires Image(d, words) && i < j < |words|
    ensures InCell(words[j].addr) && ReadCell(d.mem, words[j].addr) == words[j - 1].addr < words[j].addr
    ensures InCell(words[0].addr) && ReadCell(d.mem, words[0].addr) == 0
    ensures words[i].addr < End(words[i]) <= words[j].addr < End(words[j]) <= d.here
  {
    InPlace(d, words, 0);
    InPlace(d, words, i);
    InPlace(d, words, j - 1);
    InPlace(d, words, j);
    assert Before(words, i, j) && Before(words, j - 1, j);
  }

  lemma InPlace(d: Space, words: seq<Word>, i: nat)
    requires Image(d, words) && i < |words|
    ensures InCell(words[i].addr) && ReadCell(d.mem, words[i].addr) == LinkTo(words, i)
    ensures words[i].addr < End(words[i]) <= d.here
  {
    assert StoredAt(d.mem, words, i) && StoredAt(d.mem, words, |words| - 1);
    if i < |words| - 1 { assert Before(words, i, |words| - 1); }
  }

  // ----- the code -----

  class Dict {
    const bytes: array<Byte>
    var here: nat
    var latest: nat

    constructor ()
      ensures Valid() && fresh(bytes) && Memory() == Blank()
    {
      bytes := new Byte[SIZE](_ => '\0');
      here := BASE;
      latest := 0;
      new;
      assert bytes[..] == seq(SIZE, _ => '\0');
    }

    predicate Valid() { bytes.Length == SIZE }

    /** dict_init, without the mapping of the region. */
    method DictInit()
      requires Valid()
      modifies this, bytes
      ensures Memory() == Blank()
    {
      here := BASE;
      latest := 0;
      forall i | 0 <= i < bytes.Length { bytes[i] := '\0'; }
      assert bytes[..] == seq(SIZE, _ => '\0');
    }

    function Memory(): Space
      reads this, bytes
      requires Valid()
    {
      Space(bytes[..], here, latest)
    }

    method StoreCell(a: int, v: nat)
      requires Valid() && InCell(a)
      modifies bytes
      ensures bytes[..] == WriteCell(old(bytes[..]), a, v)
    {
      var s, o := Bytes(v, 8), a - BASE;
      forall i | 0 <= i < 8 { bytes[o + i] := s[i]; }
    }

    method StoreText(a: int, s: Text)
      requires Valid() && BASE <= a && a + |s| <= LIMIT
      modifies bytes
      ensures bytes[..] == WriteText(old(bytes[..]), a, s)
    {
      var o := a - BASE;
      forall i | 0 <= i < |s| { bytes[o + i] := s[i]; }
    }

    method EmitCell(v: nat)
      requires Valid() && InCell(here)
      modifies this`here, bytes
      ensures Memory() == PutCell(old(Memory()), v)
    {
      StoreCell(here, v);
      here := here + 8;
    }

    method EmitText(s: Text)
      requires Valid() && BASE <= here && here + |s| <= LIMIT
      modifies this`here, bytes
      ensures Memory() == PutText(old(Memory()), s)
    {
      StoreText(here, s);
      here := here + |s|;
    }

    method DictAlign()
      requires Valid()
      modifies this`here
      ensures Memory() == Align(old(Memory()))
    {
      here := AlignUp(here);
    }

    method DictComma(v: nat)
      requires Valid() && HasCell(Memory())
      modifies this`here, bytes
      ensures Memory() == Comma(old(Memory()), v)
    {
      DictAlign();
      EmitCell(v);
    }

    method StoredLength(name: Text) returns (nameLen: nat)
      ensures nameLen == NameLen(name)
    {
      nameLen := |name| % 256;
      if nameLen > MAX_NAME { nameLen := MAX_NAME; }
    }

    /** The unaligned part of a header: link, flags and length, name. */
    method EmitHeader(link: nat, marks: Text, name: Text)
      requires Valid() && InCell(here) && here + 8 + |marks| + |name| <= LIMIT
      modifies this`here, bytes
      ensures Memory() == PutText(PutText(PutCell(old(Memory()), link), marks), name)
    {
      EmitCell(link);
      EmitText(marks);
      EmitText(name);
    }

    method DictCreate(name: Text, flags: nat)
      requires Valid() && HasHeader(Memory(), name) && latest < TWO64
      modifies this, bytes
      ensures Memory() == Create(old(Memory()), name, flags)
    {
      var nameLen := StoredLength(name);
      SmallLen(name);
      DictAlign();
      var entryStart := here;
      EmitHeader(latest, [(TopBits(flags) + nameLen) as char], name[..nameLen]);
      DictAlign();
      latest := entryStart;
    }

    /** dict_set_code */
    method DictSetCode(code: nat)
      requires Valid() && InCell(here)
      modifies this`here, bytes
      ensures Memory() == PutCell(old(Memory()), code)
    {
      EmitCell(code);
    }

    method ClearHidden()
      requires Valid() && HeaderAt(bytes[..], latest)
      modifies bytes
      ensures Memory() == Reveal(old(Memory()))
    {
      StoreText(latest + 8, [Unhidden(bytes[latest + 8 - BASE] as int) as char]);
    }

    /** The inner loop of dict_find. */
    method Matches(e: nat, len: nat, name: Text) returns (same: bool)
      requires Valid() && BASE <= e && e + 9 + len <= LIMIT && len == |name|
      ensures same == SameName(bytes[e + 9 - BASE..e + 9 - BASE + len], name)
    {
      var s := bytes[e + 9 - BASE..e + 9 - BASE + len];
      for i := 0 to len
        invariant forall j :: 0 <= j < i ==> SameLetter(s, name, j)
      {
        if Upper(bytes[e + 9 - BASE + i]) != Upper(name[i]) {
          assert !SameLetter(s, name, i);
          return false;
        }
      }
      return true;
    }

    /** dict_find: follows the links from the newest entry to the first that answers to the name. */
    method DictFind(name: Text) returns (entry: nat)
      requires Valid() && Find(bytes[..], latest, name) != Lost
      ensures Find(bytes[..], latest, name) == if entry == 0 then Nothing else Entry(entry)
    {
      entry := latest;
      while entry != 0
        invariant Find(bytes[..], entry, name) == Find(bytes[..], latest, name)
        decreases entry
      {
        var flagsLen := bytes[entry + 8 - BASE] as int;
        if !Hidden(flagsLen) && flagsLen % 32 == |name| {
          var same := Matches(entry, flagsLen % 32, name);
          if same { return; }
        }
        entry := ReadCell(bytes[..], entry);
      }
    }
  }
}
