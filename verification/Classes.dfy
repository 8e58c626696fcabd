/** Character classes: the bit map that compile_branch() builds for the text
    between square brackets, from the class tables. */
module Classes {
  import opened Opcodes
  import opened Tree
  import opened Tables
  import AutoPossess

  datatype Escape = Digit | NotDigit | Word | NotWord | Space | NotSpace | Horizontal | NotHorizontal | Vertical | NotVertical

  /** What a class lists: a byte or a range, an escape, or a POSIX name by its
      place in the list of names. */
  datatype Elem = Chars(lo: byte, hi: byte) | Esc(e: Escape) | Posix(name: nat, negated: bool)

  const ERR8 := 8

  // ---- What a class means ----

  predicate EscapeHolds(e: Escape, c: byte) {
    match e
    case Digit => IsDigit(c)
    case NotDigit => !IsDigit(c)
    case Word => IsWord(c)
    case NotWord => !IsWord(c)
    case Space => IsSpace(c)
    case NotSpace => !IsSpace(c)
    case Horizontal => AutoPossess.IsHspace(c)
    case NotHorizontal => !AutoPossess.IsHspace(c)
    case Vertical => AutoPossess.IsVspace(c)
    case NotVertical => !AutoPossess.IsVspace(c)
  }

  /** The POSIX classes: alpha, lower, upper, alnum, ascii, blank, cntrl, digit,
      graph, print, punct, space, word, xdigit. */
  predicate PosixHolds(name: nat, c: byte) {
    if name == 0 then IsAlpha(c)
    else if name == 1 then IsLower(c)
    else if name == 2 then IsUpper(c)
    else if name == 3 then IsAlnum(c)
    else if name == 4 then c < 128
    else if name == 5 then c == 9 || c == 32
    else if name == 6 then IsCntrl(c)
    else if name == 7 then IsDigit(c)
    else if name == 8 then IsGraph(c)
    else if name == 9 then IsPrint(c)
    else if name == 10 then IsPunct(c)
    else if name == 11 then IsCSpace(c)
    else if name == 12 then IsWord(c)
    else IsXdigit(c)
  }

  predicate ElemHolds(e: Elem, c: byte) {
    match e
    case Chars(lo, hi) => lo <= c <= hi
    case Esc(x) => EscapeHolds(x, c)
    case Posix(name, negated) => PosixHolds(name, c) != negated
  }

  predicate ClassHolds(cl: seq<Elem>, c: byte) {
    exists k :: 0 <= k < |cl| && ElemHolds(cl[k], c)
  }

  predicate WFElem(e: Elem) { e.Posix? ==> e.name < 14 }

  // ---- Operations on the map ----

  /** Combine the map with one that is stored at `p`. */
  method Merge(dst: array<int>, op: Op, src: seq<int>, p: nat)
    requires dst.Length == 32 && p + 32 <= |src|
    modifies dst
    ensures forall c: byte :: InMap(dst[..], 0, c) <==> Apply(op, InMap(old(dst[..]), 0, c), InMap(src, p, c))
  {
    hide BitOf, Bitwise;
    for i := 0 to 32
      invariant forall j :: 0 <= j < 32 ==> dst[j] == if j < i then Bitwise(op, old(dst[j]), src[p + j], 8) else old(dst[j])
    {
      dst[i] := Bitwise(op, dst[i], src[p + i], 8);
    }
    forall c: byte ensures InMap(dst[..], 0, c) <==> Apply(op, InMap(old(dst[..]), 0, c), InMap(src, p, c)) {
      BitwiseBit(op, old(dst[..])[c / 8], src[p + c / 8], 8, c % 8);
    }
  }

  /** Combine one cell of the map with a constant. */
  method Tweak(dst: array<int>, cell: nat, op: Op, mask: int)
    requires dst.Length == 32 && cell < 32
    modifies dst
    ensures forall c: byte :: InMap(dst[..], 0, c) <==>
              if c / 8 == cell then Apply(op, InMap(old(dst[..]), 0, c), BitOf(mask, c % 8)) else InMap(old(dst[..]), 0, c)
  {
    hide BitOf, Bitwise;
    dst[cell] := Bitwise(op, dst[cell], mask, 8);
    forall c: byte
      ensures InMap(dst[..], 0, c) <==>
              if c / 8 == cell then Apply(op, InMap(old(dst[..]), 0, c), BitOf(mask, c % 8)) else InMap(old(dst[..]), 0, c)
    {
      BitwiseBit(op, old(dst[..])[cell], mask, 8, c % 8);
    }
  }

  method SetBit(dst: array<int>, b: byte)
    requires dst.Length == 32
    modifies dst
    ensures forall c: byte :: InMap(dst[..], 0, c) <==> InMap(old(dst[..]), 0, c) || c == b
  {
    hide BitOf, InMap, Bitwise;
    Tweak(dst, b / 8, Or, Pow2(b % 8));
    forall c: byte ensures BitOf(Pow2(b % 8), c % 8) <==> c % 8 == b % 8 { Pow2Bit(b % 8, c % 8); }
  }

  // ---- Escapes ----

  /** The map of a class at `m` of the tables. */
  lemma FromTables(t: seq<int>, m: nat, p: nat)
    requires Built(t) && IsMap(m) && p == CBITS + m
    ensures forall c: byte :: InMap(t, p, c) <==> Holds(m, c)
  {
    forall c: byte ensures InMap(t, p, c) <==> Holds(m, c) { assert ClassBit(t, m, c) <==> Holds(m, c); }
  }

  /** \h, \v and what they leave out, by cell. */
  function Blanks(vertical: bool, cell: int): int {
    if vertical then (if cell == 1 then 0x3c else if cell == 16 then 0x20 else 0)
    else (if cell == 1 then 0x02 else if cell == 4 || cell == 20 then 0x01 else 0)
  }

  lemma BlanksBit(vertical: bool, c: byte)
    ensures BitOf(Blanks(vertical, c / 8), c % 8) <==> if vertical then AutoPossess.IsVspace(c) else AutoPossess.IsHspace(c)
  {
    SmallBits(c % 8);
  }

  /** The constants used as masks, bit by bit. */
  lemma SmallBits(k: nat)
    requires k < 8
    ensures (BitOf(0x3c, k) <==> 2 <= k <= 5) && (BitOf(0x20, k) <==> k == 5) && (BitOf(0x08, k) <==> k == 3)
    ensures (BitOf(0x02, k) <==> k == 1) && (BitOf(0x01, k) <==> k == 0) && !BitOf(0, k)
    ensures (BitOf(0x7f, k) <==> k != 7) && BitOf(0xff, k)
  {
    Sum([false, false, true, true, true, true, false, false], 0x3c);
    Sum([true, true, true, true, true, true, true, false], 0x7f);
    Sum([true, true, true, true, true, true, true, true], 0xff);
    Pow2Bit(5, k);
    Pow2Bit(3, k);
    Pow2Bit(1, k);
    Pow2Bit(0, k);
    ZeroBits(k);
    assert Pow2(1) == 2 && Pow2(2) == 4 && Pow2(3) == 8 && Pow2(4) == 16 && Pow2(5) == 32;
  }

  /** All bytes but those of \h or \v. */
  method AddNotBlank(dst: array<int>, vertical: bool)
    requires dst.Length == 32
    modifies dst
    ensures forall c: byte :: InMap(dst[..], 0, c) <==>
              InMap(old(dst[..]), 0, c) || !(if vertical then AutoPossess.IsVspace(c) else AutoPossess.IsHspace(c))
  {
    hide BitOf, Bitwise, Blanks;
    for i := 0 to 32
      invariant forall j :: 0 <= j < 32 ==>
                  dst[j] == if j < i then Bitwise(Or, old(dst[j]), Bitwise(AndNot, 0xff, Blanks(vertical, j), 8), 8) else old(dst[j])
    {
      var x := Bitwise(AndNot, 0xff, Blanks(vertical, i), 8);
      dst[i] := Bitwise(Or, dst[i], x, 8);
    }
    forall c: byte
      ensures InMap(dst[..], 0, c) <==> InMap(old(dst[..]), 0, c) || !(if vertical then AutoPossess.IsVspace(c) else AutoPossess.IsHspace(c))
    {
      var blanks := Blanks(vertical, c / 8);
      BitwiseBit(Or, old(dst[..])[c / 8], Bitwise(AndNot, 0xff, blanks, 8), 8, c % 8);
      BitwiseBit(AndNot, 0xff, blanks, 8, c % 8);
      SmallBits(c % 8);
      BlanksBit(vertical, c);
    }
  }

  /** \s: the map of white space without VT, which stays if it is there. */
  method AddSpace(dst: array<int>, t: seq<int>)
    requires dst.Length == 32 && Built(t)
    modifies dst
    ensures forall c: byte :: InMap(dst[..], 0, c) <==> InMap(old(dst[..]), 0, c) || IsSpace(c)
  {
    hide BitOf, Bitwise, Built;
    var s := CBITS + CBIT_SPACE;
    assert |t| == LENGTH by { LengthOf(t); }
    dst[0] := Bitwise(Or, dst[0], t[s], 8);
    dst[1] := Bitwise(Or, dst[1], Bitwise(AndNot, t[s + 1], 0x08, 8), 8);
    for i := 2 to 32
      invariant dst[0] == Bitwise(Or, old(dst[0]), t[s], 8)
      invariant dst[1] == Bitwise(Or, old(dst[1]), Bitwise(AndNot, t[s + 1], 0x08, 8), 8)
      invariant forall j :: 2 <= j < 32 ==> dst[j] == if j < i then Bitwise(Or, old(dst[j]), t[s + j], 8) else old(dst[j])
    {
      dst[i] := Bitwise(Or, dst[i], t[s + i], 8);
    }
    FromTables(t, CBIT_SPACE, CBITS + CBIT_SPACE);
    forall c: byte ensures InMap(dst[..], 0, c) <==> InMap(old(dst[..]), 0, c) || IsSpace(c) {
      var k := c / 8;
      assert InMap(t, s, c) <==> Holds(CBIT_SPACE, c);
      SmallBits(c % 8);
      BitwiseBit(AndNot, t[s + 1], 0x08, 8, c % 8);
      BitwiseBit(Or, old(dst[..])[k], if k == 1 then Bitwise(AndNot, t[s + 1], 0x08, 8) else t[s + k], 8, c % 8);
    }
  }

  lemma LengthOf(t: seq<int>)
    requires Built(t)
    ensures |t| == LENGTH
  {}

  method AddEscape(dst: array<int>, t: seq<int>, e: Escape)
    requires dst.Length == 32 && Built(t)
    modifies dst
    ensures forall c: byte :: InMap(dst[..], 0, c) <==> InMap(old(dst[..]), 0, c) || EscapeHolds(e, c)
  {
    hide BitOf, InMap, Built;
    LengthOf(t);
    match e
    case Digit =>
      FromTables(t, CBIT_DIGIT, CBITS + CBIT_DIGIT);
      Merge(dst, Or, t, CBITS + CBIT_DIGIT);
    case NotDigit =>
      FromTables(t, CBIT_DIGIT, CBITS + CBIT_DIGIT);
      Merge(dst, OrNot, t, CBITS + CBIT_DIGIT);
    case Word =>
      FromTables(t, CBIT_WORD, CBITS + CBIT_WORD);
      Merge(dst, Or, t, CBITS + CBIT_WORD);
    case NotWord =>
      FromTables(t, CBIT_WORD, CBITS + CBIT_WORD);
      Merge(dst, OrNot, t, CBITS + CBIT_WORD);
    case Space => AddSpace(dst, t);
    case NotSpace =>
      FromTables(t, CBIT_SPACE, CBITS + CBIT_SPACE);
      Merge(dst, OrNot, t, CBITS + CBIT_SPACE);
      Tweak(dst, 1, Or, 0x08);
      forall c: byte ensures BitOf(0x08, c % 8) <==> c % 8 == 3 { SmallBits(c % 8); }
    case Horizontal =>
      SetBit(dst, 0x09);
      SetBit(dst, 0x20);
      SetBit(dst, 0xa0);
    case NotHorizontal => AddNotBlank(dst, false);
    case Vertical =>
      SetBit(dst, 0x0a);
      SetBit(dst, 0x0b);
      SetBit(dst, 0x0c);
      SetBit(dst, 0x0d);
      SetBit(dst, 0x85);
    case NotVertical => AddNotBlank(dst, true);
  }

  // ---- POSIX classes ----

  /** For each name a map, a second map to be added or removed or -1, and what
      to do: remove the second map if negative; by the absolute value, 1: remove
      vertical space, 2: remove the underscore. */
  const POSIX_CLASS_MAPS: seq<(nat, int, int)> := [
    (CBIT_WORD, CBIT_DIGIT, -2), (CBIT_LOWER, -1, 0), (CBIT_UPPER, -1, 0), (CBIT_WORD, -1, 2), (CBIT_PRINT, CBIT_CNTRL, 0),
    (CBIT_SPACE, -1, 1), (CBIT_CNTRL, -1, 0), (CBIT_DIGIT, -1, 0), (CBIT_GRAPH, -1, 0), (CBIT_PRINT, -1, 0),
    (CBIT_PUNCT, -1, 0), (CBIT_SPACE, -1, 0), (CBIT_WORD, -1, 0), (CBIT_XDIGIT, -1, 0)]

  predicate WFMaps(m: (nat, int, int)) { IsMap(m.0) && (m.1 == -1 || (m.1 >= 0 && IsMap(m.1))) }

  /** What the three columns of the table stand for. */
  predicate MapsHold(m: (nat, int, int), c: byte)
    requires WFMaps(m)
  {
    (if m.1 < 0 then Holds(m.0, c) else if m.2 >= 0 then Holds(m.0, c) || Holds(m.1, c) else Holds(m.0, c) && !Holds(m.1, c)) &&
    !((m.2 == 1 || m.2 == -1) && 0x0a <= c <= 0x0d) && !((m.2 == 2 || m.2 == -2) && c == '_' as int)
  }

  /** The table makes of the ten maps all fourteen classes. */
  lemma PosixMapsRight(name: nat, c: byte)
    requires name < 14
    ensures WFMaps(POSIX_CLASS_MAPS[name]) && (MapsHold(POSIX_CLASS_MAPS[name], c) <==> PosixHolds(name, c))
  {}

  lemma PosixWF(name: nat)
    requires name < 14
    ensures WFMaps(POSIX_CLASS_MAPS[name])
  {}

  method AddPosix(dst: array<int>, t: seq<int>, name: nat, negated: bool)
    requires dst.Length == 32 && Built(t) && name < 14
    modifies dst
    ensures forall c: byte :: InMap(dst[..], 0, c) <==> InMap(old(dst[..]), 0, c) || PosixHolds(name, c) != negated
  {
    hide BitOf, InMap, Built, MapsHold, PosixHolds;
    PosixWF(name);
    var maps := POSIX_CLASS_MAPS[name];
    var pbits := PosixBits(t, maps);
    Merge(dst, if negated then OrNot else Or, pbits[..], 0);
    forall c: byte ensures MapsHold(maps, c) <==> PosixHolds(name, c) { PosixMapsRight(name, c); }
  }

  /** The map for a row of the table, in a chunk of its own. */
  method PosixBits(t: seq<int>, maps: (nat, int, int)) returns (pbits: array<int>)
    requires Built(t) && WFMaps(maps)
    ensures fresh(pbits) && pbits.Length == 32
    ensures forall c: byte :: InMap(pbits[..], 0, c) <==> MapsHold(maps, c)
  {
    hide BitOf, Built, Holds;
    LengthOf(t);
    pbits := new int[32];
    for i := 0 to 32
      invariant forall j :: 0 <= j < i ==> pbits[j] == t[CBITS + maps.0 + j]
    {
      pbits[i] := t[CBITS + maps.0 + i];
    }
    forall c: byte ensures InMap(pbits[..], 0, c) <==> Holds(maps.0, c) { FromTables(t, maps.0, CBITS + maps.0); }
    hide InMap;
    var tabopt := maps.2;
    if maps.1 >= 0 {
      FromTables(t, maps.1, CBITS + maps.1);
      Merge(pbits, if tabopt >= 0 then Or else AndNot, t, CBITS + maps.1);
    }
    if tabopt < 0 { tabopt := -tabopt; }
    if tabopt == 1 {
      Tweak(pbits, 1, AndNot, 0x3c);
    } else if tabopt == 2 {
      Tweak(pbits, 11, And, 0x7f);
    }
    forall c: byte ensures (BitOf(0x3c, c % 8) <==> 2 <= c % 8 <= 5) && (BitOf(0x7f, c % 8) <==> c % 8 != 7) { SmallBits(c % 8); }
  }

  // ---- The class ----

  method AddRange(dst: array<int>, lo: byte, hi: byte)
    requires dst.Length == 32 && lo <= hi
    modifies dst
    ensures forall c: byte :: InMap(dst[..], 0, c) <==> InMap(old(dst[..]), 0, c) || lo <= c <= hi
  {
    hide InMap;
    for b := lo to hi + 1
      invariant forall c: byte :: InMap(dst[..], 0, c) <==> InMap(old(dst[..]), 0, c) || lo <= c < b
    {
      SetBit(dst, b);
    }
  }

  /** The map complemented. */
  method Complement(classbits: array<int>) returns (bits: seq<int>)
    requires classbits.Length == 32
    ensures |bits| == 32 && forall c: byte :: InMap(bits, 0, c) <==> !InMap(classbits[..], 0, c)
  {
    hide InMap;
    var code := new int[32](_ => 0);
    ghost var zeros := code[..];
    Merge(code, OrNot, classbits[..], 0);
    forall c: byte ensures !InMap(zeros, 0, c) { NoneIn(zeros, c); }
    bits := code[..];
  }

  lemma NoneIn(zeros: seq<int>, c: byte)
    requires |zeros| == 32 && forall j :: 0 <= j < 32 ==> zeros[j] == 0
    ensures !InMap(zeros, 0, c)
  {
    ZeroBits(c % 8);
  }

  /** The first `n` elements are in order, and the map has their bytes. */
  ghost predicate MapOf(classbits: seq<int>, cl: seq<Elem>, n: nat)
    requires |classbits| == 32 && n <= |cl|
  {
    forall c: byte :: InMap(classbits, 0, c) <==> ClassHolds(cl[..n], c)
  }

  predicate Ordered(e: Elem) { e.Chars? ==> e.lo <= e.hi }

  lemma OneMore(cl: seq<Elem>, n: nat, c: byte)
    requires n < |cl|
    ensures ClassHolds(cl[..n + 1], c) <==> ClassHolds(cl[..n], c) || ElemHolds(cl[n], c)
  {
    if k :| 0 <= k < n && ElemHolds(cl[..n][k], c) { assert ElemHolds(cl[..n + 1][k], c); }
    if ElemHolds(cl[n], c) { assert ElemHolds(cl[..n + 1][n], c); }
    var now := cl[..n + 1];
    if k :| 0 <= k < |now| && ElemHolds(now[k], c) { assert k < n ==> ElemHolds(cl[..n][k], c); }
  }

  /** One character after the other: its bytes, and how many there are at least,
      counting a name or an escape as more than one. */
  method AddElem(dst: array<int>, t: seq<int>, cl: seq<Elem>, n: nat, charcount: nat) returns (count: nat)
    requires dst.Length == 32 && Built(t) && n < |cl| && WFElem(cl[n]) && Ordered(cl[n]) && MapOf(dst[..], cl, n)
    modifies dst
    ensures MapOf(dst[..], cl, n + 1)
    ensures count > 0 && (count == 1 <==> charcount == 0 && cl[n].Chars? && cl[n].lo == cl[n].hi)
  {
    hide InMap, ClassHolds, Built;
    ghost var was := dst[..];
    match cl[n] {
      case Chars(lo, hi) =>
        if lo == hi { SetBit(dst, lo); } else { AddRange(dst, lo, hi); }
        count := charcount + hi - lo + 1;
      case Esc(e) =>
        AddEscape(dst, t, e);
        count := charcount + 2;
      case Posix(name, negated) =>
        AddPosix(dst, t, name, negated);
        count := 10;
    }
    forall c: byte ensures InMap(dst[..], 0, c) <==> ClassHolds(cl[..n + 1], c) {
      OneMore(cl, n, c);
      assert InMap(was, 0, c) <==> ClassHolds(cl[..n], c);
    }
  }

  /** A class is compiled to the bytes that it lists, or to all others; just one
      byte becomes a character. A range out of order is an error. */
  method CompileClass(t: seq<int>, cl: seq<Elem>, negate_class: bool) returns (errorcode: int, x: Single)
    requires Built(t) && forall k :: 0 <= k < |cl| ==> WFElem(cl[k])
    ensures errorcode == 0 || errorcode == ERR8
    ensures errorcode == 0 <==> forall k :: 0 <= k < |cl| ==> Ordered(cl[k])
    ensures errorcode == 0 ==> WFSingle(x) && forall c: byte :: Hit(x, c) <==> ClassHolds(cl, c) != negate_class
  {
    hide Built, InMap, ClassHolds, ElemHolds, BitAt;
    errorcode, x := 0, Chr(0);
    var classbits := new int[32](_ => 0);
    var class_charcount: nat, class_lastchar: byte := 0, 0;
    Nothing(classbits[..], cl);
    var n := 0;
    while n < |cl|
      invariant 0 <= n <= |cl| && MapOf(classbits[..], cl, n)
      invariant forall k :: 0 <= k < n ==> Ordered(cl[k])
      invariant class_charcount == 0 <==> n == 0
      invariant class_charcount == 1 ==> n == 1 && cl[0] == Chars(class_lastchar, class_lastchar)
    {
      if cl[n].Chars? && cl[n].hi < cl[n].lo { return ERR8, x; }
      class_charcount := AddElem(classbits, t, cl, n, class_charcount);
      if cl[n].Chars? { class_lastchar := cl[n].hi; }
      n := n + 1;
    }
    assert cl[..n] == cl;
    if class_charcount == 1 && !negate_class {
      x := Chr(class_lastchar);
      forall c: byte ensures ClassHolds(cl, c) <==> c == class_lastchar { JustOne(cl, c); }
      return;
    }
    var bits := classbits[..];
    if negate_class { bits := Complement(classbits); }
    x := Set(bits);
    forall c: byte ensures Hit(x, c) <==> ClassHolds(cl, c) != negate_class {
      InMapAt(bits, 0, c);
      assert InMap(classbits[..], 0, c) <==> ClassHolds(cl[..n], c);
    }
  }

  lemma Nothing(classbits: seq<int>, cl: seq<Elem>)
    requires |classbits| == 32 && forall j :: 0 <= j < 32 ==> classbits[j] == 0
    ensures MapOf(classbits, cl, 0)
  {
    forall c: byte ensures !InMap(classbits, 0, c) { NoneIn(classbits, c); }
  }

  lemma JustOne(cl: seq<Elem>, c: byte)
    requires |cl| == 1 && cl[0].Chars? && cl[0].lo == cl[0].hi
    ensures ClassHolds(cl, c) <==> c == cl[0].lo
  {
    assert ElemHolds(cl[0], c) <==> c == cl[0].lo;
  }
}
