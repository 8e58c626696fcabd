/** pcre_maketables() in the C locale: the case tables, the bit maps of the
    character classes, and the type flags of every byte. */
module Tables {
  import opened Opcodes

  // ---- Bits of a byte ----

  predicate BitOf(x: int, k: nat)
    decreases k
  {
    if k == 0 then x % 2 == 1 else BitOf(x / 2, k - 1)
  }

  datatype Op = Or | OrNot | And | AndNot

  predicate Apply(op: Op, a: bool, b: bool) {
    match op
    case Or => a || b
    case OrNot => a || !b
    case And => a && b
    case AndNot => a && !b
  }

  /** The operators |, & and ~ on the lowest `n` bits. */
  function Bitwise(op: Op, x: int, y: int, n: nat): nat
    decreases n
  {
    if n == 0 then 0 else AsBit(Apply(op, x % 2 == 1, y % 2 == 1)) + 2 * Bitwise(op, x / 2, y / 2, n - 1)
  }

  function AsBit(b: bool): nat { if b then 1 else 0 }

  lemma {:induction false} BitwiseBit(op: Op, x: int, y: int, n: nat, k: nat)
    requires k < n
    ensures BitOf(Bitwise(op, x, y, n), k) <==> Apply(op, BitOf(x, k), BitOf(y, k))
    decreases n
  {
    var rest := Bitwise(op, x / 2, y / 2, n - 1);
    assert Bitwise(op, x, y, n) / 2 == rest;
    if k > 0 { BitwiseBit(op, x / 2, y / 2, n - 1, k - 1); }
  }

  lemma {:induction false} BitwiseRange(op: Op, x: int, y: int, n: nat)
    ensures Bitwise(op, x, y, n) < Pow2(n)
    decreases n
  {
    if n > 0 { BitwiseRange(op, x / 2, y / 2, n - 1); }
  }

  /** A power of two has one bit. */
  lemma {:induction false} Pow2Bit(k: nat, j: nat)
    ensures BitOf(Pow2(k), j) <==> j == k
    decreases j
  {
    if k == 0 {
      if j > 0 { ZeroBits(j - 1); }
    } else {
      assert Pow2(k) / 2 == Pow2(k - 1);
      if j > 0 { Pow2Bit(k - 1, j - 1); }
    }
  }

  lemma {:induction false} ZeroBits(j: nat)
    ensures !BitOf(0, j)
    decreases j
  {
    if j > 0 { ZeroBits(j - 1); }
  }

  lemma {:induction false} HalfOf(x: int, k: nat)
    requires 0 < k < 8
    ensures x / Pow2(k) == (x / 2) / Pow2(k - 1)
  {
    assert Pow2(0) == 1 && Pow2(1) == 2 && Pow2(2) == 4 && Pow2(3) == 8;
    assert Pow2(4) == 16 && Pow2(5) == 32 && Pow2(6) == 64 && Pow2(7) == 128;
    if k == 1 {} else if k == 2 {} else if k == 3 {} else if k == 4 {} else if k == 5 {} else if k == 6 {} else {}
  }

  /** A bit by shifting and by division. */
  lemma {:induction false} BitByDivision(x: int, k: nat)
    requires k < 8
    ensures BitOf(x, k) <==> (x / Pow2(k)) % 2 == 1
    decreases k
  {
    if k > 0 {
      BitByDivision(x / 2, k - 1);
      HalfOf(x, k);
    }
  }

  /** Bit `c` of a map of 32 bytes that starts at `p`. */
  predicate InMap(t: seq<int>, p: nat, c: byte)
    requires p + 32 <= |t|
  {
    BitOf(t[p + c / 8], c % 8)
  }

  lemma InMapAt(t: seq<int>, p: nat, c: byte)
    requires p + 32 <= |t|
    ensures InMap(t, p, c) <==> BitAt(t, p, c)
  {
    BitByDivision(t[p + c / 8], c % 8);
  }

  // ---- The C locale ----

  predicate IsUpper(c: byte) { 'A' as int <= c <= 'Z' as int }
  predicate IsLower(c: byte) { 'a' as int <= c <= 'z' as int }
  predicate IsAlnum(c: byte) { IsAlpha(c) || IsDigit(c) }
  predicate IsCSpace(c: byte) { 9 <= c <= 13 || c == 32 }
  predicate IsXdigit(c: byte) { IsDigit(c) || 'A' as int <= c <= 'F' as int || 'a' as int <= c <= 'f' as int }
  predicate IsGraph(c: byte) { 33 <= c <= 126 }
  predicate IsPrint(c: byte) { 32 <= c <= 126 }
  predicate IsPunct(c: byte) { IsGraph(c) && !IsAlnum(c) }
  predicate IsCntrl(c: byte) { c < 32 || c == 127 }

  function ToLower(c: byte): byte { if IsUpper(c) then c + 32 else c }
  function ToUpper(c: byte): byte { if IsLower(c) then c - 32 else c }

  /** The metacharacters, and zero. */
  predicate IsMeta(c: byte) {
    c == 0 || exists k :: 0 <= k < |META| && META[k] as int == c
  }

  const META: string := "\\*+?{^.$|()["

  // ---- The layout of the tables ----

  const FCC := 256
  const CBITS := 512
  const CTYPES := 832
  const LENGTH := 1088

  const CBIT_SPACE := 0
  const CBIT_XDIGIT := 32
  const CBIT_DIGIT := 64
  const CBIT_UPPER := 96
  const CBIT_LOWER := 128
  const CBIT_WORD := 160
  const CBIT_GRAPH := 192
  const CBIT_PRINT := 224
  const CBIT_PUNCT := 256
  const CBIT_CNTRL := 288

  /** The class whose bit map is at offset `m`. */
  predicate Holds(m: nat, c: byte) {
    if m == CBIT_SPACE then IsCSpace(c)
    else if m == CBIT_XDIGIT then IsXdigit(c)
    else if m == CBIT_DIGIT then IsDigit(c)
    else if m == CBIT_UPPER then IsUpper(c)
    else if m == CBIT_LOWER then IsLower(c)
    else if m == CBIT_WORD then IsWord(c)
    else if m == CBIT_GRAPH then IsGraph(c)
    else if m == CBIT_PRINT then IsPrint(c)
    else if m == CBIT_PUNCT then IsPunct(c)
    else IsCntrl(c)
  }

  predicate IsMap(m: nat) { m % 32 == 0 && m <= CBIT_CNTRL }

  const CTYPE_SPACE := 0
  const CTYPE_LETTER := 1
  const CTYPE_DIGIT := 2
  const CTYPE_XDIGIT := 3
  const CTYPE_WORD := 4
  const CTYPE_META := 7

  /** What the flag that is bit `b` of a byte's type says. */
  predicate Flag(b: nat, c: byte) {
    if b == CTYPE_SPACE then IsSpace(c)
    else if b == CTYPE_LETTER then IsAlpha(c)
    else if b == CTYPE_DIGIT then IsDigit(c)
    else if b == CTYPE_XDIGIT then IsXdigit(c)
    else if b == CTYPE_WORD then IsWord(c)
    else b == CTYPE_META && IsMeta(c)
  }

  ghost predicate Flags(x: int, c: byte) {
    0 <= x < 256 && forall b: nat :: b < 8 ==> (BitOf(x, b) <==> Flag(b, c))
  }

  /** Bit `c` of the map of a class. */
  predicate ClassBit(t: seq<int>, m: nat, c: byte)
    requires |t| == LENGTH && m + 32 <= 320
  {
    InMap(t, CBITS + m, c)
  }

  function TypeIn(t: seq<int>, c: byte): int
    requires |t| == LENGTH
  {
    t[CTYPES + c]
  }

  /** Lower case, and the other case. */
  ghost predicate CaseTables(t: seq<int>)
    requires |t| == LENGTH
  {
    forall c: byte :: t[c] == ToLower(c) && t[FCC + c] == if IsLower(c) then ToUpper(c) else ToLower(c)
  }

  /** Every bit map has the bits of its class, for the bytes below `n`. */
  ghost predicate BitMaps(t: seq<int>, n: nat)
    requires |t| == LENGTH
  {
    forall m: nat, c: byte :: IsMap(m) ==> (ClassBit(t, m, c) <==> c < n && Holds(m, c))
  }

  ghost predicate TypeTable(t: seq<int>)
    requires |t| == LENGTH
  {
    forall c: byte :: Flags(TypeIn(t, c), c)
  }

  ghost predicate Built(t: seq<int>) {
    |t| == LENGTH && CaseTables(t) && BitMaps(t, 256) && TypeTable(t)
  }

  // ---- Building them ----

  lemma SameCell(m: nat, m': nat, i: byte, c: byte)
    requires IsMap(m) && IsMap(m')
    ensures m % 32 == 0 && m <= CBIT_CNTRL
    ensures m + i / 8 == m' + c / 8 && i % 8 == c % 8 ==> m == m' && i == c
    ensures m + i / 8 == m' + c / 8 ==> m == m' && i / 8 == c / 8
  {}

  /** Set the bit of byte `i` in the map at `m`, if it belongs there. */
  method MarkIf(t: array<int>, belongs: bool, m: nat, i: byte)
    requires t.Length == LENGTH && IsMap(m)
    modifies t
    ensures forall x :: 0 <= x < LENGTH && !(CBITS <= x < CTYPES) ==> t[x] == old(t[x])
    ensures forall m': nat, c: byte :: IsMap(m') ==>
              (ClassBit(t[..], m', c) <==> ClassBit(old(t[..]), m', c) || (belongs && m' == m && c == i))
  {
    hide BitOf, Bitwise;
    if belongs {
      ghost var was := t[..];
      t[CBITS + m + i / 8] := Bitwise(Or, t[CBITS + m + i / 8], Pow2(i % 8), 8);
      forall m': nat, c: byte | IsMap(m')
        ensures ClassBit(t[..], m', c) <==> ClassBit(was, m', c) || (m' == m && c == i)
      {
        SameCell(m, m', i, c);
        BitwiseBit(Or, was[CBITS + m + i / 8], Pow2(i % 8), 8, c % 8);
        Pow2Bit(i % 8, c % 8);
      }
    }
  }

  /** The type of a byte: its flags added up. */
  method TypeOf(i: byte) returns (x: int)
    ensures Flags(x, i)
  {
    x := 0;
    if i != 0x0b && IsCSpace(i) { x := x + 1; }
    if IsAlpha(i) { x := x + 2; }
    if IsDigit(i) { x := x + 4; }
    if IsXdigit(i) { x := x + 8; }
    if IsAlnum(i) || i == '_' as int { x := x + 16; }
    if IsMeta(i) { x := x + 128; }
    Sum([IsSpace(i), IsAlpha(i), IsDigit(i), IsXdigit(i), IsWord(i), false, false, IsMeta(i)], x);
  }

  /** The number whose lowest bits are given. */
  function FromBits(bits: seq<bool>): nat {
    if bits == [] then 0 else AsBit(bits[0]) + 2 * FromBits(bits[1..])
  }

  lemma {:induction false} FromBitsBit(bits: seq<bool>, k: nat)
    requires k < |bits|
    ensures BitOf(FromBits(bits), k) <==> bits[k]
    decreases k
  {
    assert FromBits(bits) / 2 == FromBits(bits[1..]);
    if k > 0 { FromBitsBit(bits[1..], k - 1); }
  }

  lemma Peel(f: seq<bool>, k: nat)
    requires k < |f|
    ensures FromBits(f[k..]) == AsBit(f[k]) + 2 * FromBits(f[k + 1..])
  {
    assert f[k..][1..] == f[k + 1..];
  }

  lemma {:induction false} FromBitsRange(bits: seq<bool>)
    ensures FromBits(bits) < Pow2(|bits|)
    decreases |bits|
  {
    if bits != [] { FromBitsRange(bits[1..]); }
  }

  lemma Sum(f: seq<bool>, x: int)
    requires |f| == 8 && x == AsBit(f[0]) + 2 * AsBit(f[1]) + 4 * AsBit(f[2]) + 8 * AsBit(f[3]) + 16 * AsBit(f[4])
                              + 32 * AsBit(f[5]) + 64 * AsBit(f[6]) + 128 * AsBit(f[7])
    ensures 0 <= x < 256 && forall k: nat :: k < 8 ==> (BitOf(x, k) <==> f[k])
  {
    hide BitOf, AsBit, FromBits;
    UpperHalf(f);
    LowerHalf(f);
    SumRange(f);
    forall k: nat | k < 8 ensures BitOf(x, k) <==> f[k] { FromBitsBit(f, k); }
  }

  lemma UpperHalf(f: seq<bool>)
    requires |f| == 8
    ensures FromBits(f[4..]) == AsBit(f[4]) + 2 * AsBit(f[5]) + 4 * AsBit(f[6]) + 8 * AsBit(f[7])
  {
    hide AsBit, FromBits;
    Peel(f, 4);
    Peel(f, 5);
    Peel(f, 6);
    Peel(f, 7);
    NoneLeft(f);
  }

  lemma NoneLeft(f: seq<bool>)
    ensures FromBits(f[|f|..]) == 0
  {}

  lemma LowerHalf(f: seq<bool>)
    requires |f| == 8
    ensures FromBits(f) == AsBit(f[0]) + 2 * AsBit(f[1]) + 4 * AsBit(f[2]) + 8 * AsBit(f[3]) + 16 * FromBits(f[4..])
  {
    hide AsBit, FromBits;
    assert f[0..] == f;
    Peel(f, 0);
    Peel(f, 1);
    Peel(f, 2);
    Peel(f, 3);
  }

  lemma SumRange(f: seq<bool>)
    requires |f| == 8
    ensures FromBits(f) < 256
  {
    hide FromBits;
    FromBitsRange(f);
    assert Pow2(4) == 16 && Pow2(8) == 16 * Pow2(4);
  }

  /** Build the tables for the C locale. */
  method PcreMaketables() returns (tables: array<int>)
    ensures fresh(tables) && Built(tables[..])
  {
    hide BitMaps, TypeTable;
    tables := new int[LENGTH];
    var p := 0;
    for i := 0 to 256
      invariant p == i
      invariant forall c: byte :: c < i ==> tables[c] == ToLower(c)
    {
      tables[p] := ToLower(i);
      p := p + 1;
    }
    for i := 0 to 256
      invariant p == FCC + i
      invariant forall c: byte :: tables[c] == ToLower(c) && (c < i ==> tables[FCC + c] == if IsLower(c) then ToUpper(c) else ToLower(c))
    {
      tables[p] := if IsLower(i) then ToUpper(i) else ToLower(i);
      p := p + 1;
    }
    FillBitMaps(tables);
    FillTypes(tables);
  }

  method FillBitMaps(t: array<int>)
    requires t.Length == LENGTH
    modifies t
    ensures BitMaps(t[..], 256) && forall x :: 0 <= x < LENGTH && !(CBITS <= x < CTYPES) ==> t[x] == old(t[x])
  {
    hide ClassBit;
    for i := 0 to 320
      invariant forall x :: 0 <= x < LENGTH && !(CBITS <= x < CTYPES) ==> t[x] == old(t[x])
      invariant forall x :: CBITS <= x < CBITS + i ==> t[x] == 0
    {
      t[CBITS + i] := 0;
    }
    NoBits(t[..]);
    for i := 0 to 256
      invariant forall x :: 0 <= x < LENGTH && !(CBITS <= x < CTYPES) ==> t[x] == old(t[x])
      invariant BitMaps(t[..], i)
    {
      MarkIf(t, IsDigit(i), CBIT_DIGIT, i);
      MarkIf(t, IsUpper(i), CBIT_UPPER, i);
      MarkIf(t, IsLower(i), CBIT_LOWER, i);
      MarkIf(t, IsAlnum(i), CBIT_WORD, i);
      MarkIf(t, i == '_' as int, CBIT_WORD, i);
      MarkIf(t, IsCSpace(i), CBIT_SPACE, i);
      MarkIf(t, IsXdigit(i), CBIT_XDIGIT, i);
      MarkIf(t, IsGraph(i), CBIT_GRAPH, i);
      MarkIf(t, IsPrint(i), CBIT_PRINT, i);
      MarkIf(t, IsPunct(i), CBIT_PUNCT, i);
      MarkIf(t, IsCntrl(i), CBIT_CNTRL, i);
    }
  }

  method FillTypes(t: array<int>)
    requires t.Length == LENGTH && BitMaps(t[..], 256)
    modifies t
    ensures BitMaps(t[..], 256) && TypeTable(t[..]) && forall x :: 0 <= x < CBITS ==> t[x] == old(t[x])
  {
    hide BitMaps, Flags;
    for i := 0 to 256
      invariant forall x :: 0 <= x < CTYPES ==> t[x] == old(t[x])
      invariant forall c: byte :: c < i ==> Flags(TypeIn(t[..], c), c)
    {
      ghost var was := t[..];
      var x := TypeOf(i);
      t[CTYPES + i] := x;
      forall c: byte | c <= i ensures Flags(TypeIn(t[..], c), c) {
        if c < i { assert TypeIn(t[..], c) == TypeIn(was, c); }
      }
    }
    MapsKept(old(t[..]), t[..], 256);
  }

  lemma NoBits(t: seq<int>)
    requires |t| == LENGTH && forall x :: CBITS <= x < CTYPES ==> t[x] == 0
    ensures BitMaps(t, 0)
  {
    forall m: nat, c: byte | IsMap(m) ensures !ClassBit(t, m, c) {
      SameCell(m, m, c, c);
      ZeroBits(c % 8);
    }
  }

  lemma MapsKept(was: seq<int>, now: seq<int>, n: nat)
    requires |was| == |now| == LENGTH && BitMaps(was, n) && forall x :: CBITS <= x < CTYPES ==> now[x] == was[x]
    ensures BitMaps(now, n)
  {
    hide BitOf;
    forall m: nat, c: byte | IsMap(m) ensures ClassBit(now, m, c) <==> c < n && Holds(m, c) {
      SameCell(m, m, c, c);
      assert ClassBit(was, m, c) <==> c < n && Holds(m, c);
    }
  }

  // ---- What they are good for ----

  /** The flags that match() looks at decide the type opcodes. */
  lemma TypesAgree(t: seq<int>, c: byte)
    requires Built(t)
    ensures BitOf(TypeIn(t, c), CTYPE_DIGIT) <==> TypeHit(OP_DIGIT, c)
    ensures BitOf(TypeIn(t, c), CTYPE_SPACE) <==> TypeHit(OP_WHITESPACE, c)
    ensures BitOf(TypeIn(t, c), CTYPE_WORD) <==> TypeHit(OP_WORDCHAR, c)
  {
    hide BitOf;
    assert Flags(TypeIn(t, c), c);
  }

  /** The bit maps and flags by the numbers of their bytes, and the case tables. */
  lemma TablesSpelled(t: seq<int>, c: byte)
    requires Built(t)
    ensures InMap(t, 512, c) <==> c == 9 || c == 10 || c == 11 || c == 12 || c == 13 || c == 32
    ensures InMap(t, 544, c) <==> 48 <= c <= 57 || 65 <= c <= 70 || 97 <= c <= 102
    ensures InMap(t, 576, c) <==> 48 <= c <= 57
    ensures (InMap(t, 608, c) <==> 65 <= c <= 90) && (InMap(t, 640, c) <==> 97 <= c <= 122)
    ensures InMap(t, 672, c) <==> 48 <= c <= 57 || 65 <= c <= 90 || c == 95 || 97 <= c <= 122
    ensures (InMap(t, 704, c) <==> 33 <= c <= 126) && (InMap(t, 736, c) <==> 32 <= c <= 126)
    ensures InMap(t, 768, c) <==> 33 <= c <= 47 || 58 <= c <= 64 || 91 <= c <= 96 || 123 <= c <= 126
    ensures InMap(t, 800, c) <==> c <= 31 || c == 127
    ensures t[c] == if 65 <= c <= 90 then c + 32 else c
    ensures t[256 + c] == if 65 <= c <= 90 then c + 32 else if 97 <= c <= 122 then c - 32 else c
    ensures BitOf(t[832 + c], 0) <==> c == 9 || c == 10 || c == 12 || c == 13 || c == 32
    ensures BitOf(t[832 + c], 1) <==> 65 <= c <= 90 || 97 <= c <= 122
    ensures BitOf(t[832 + c], 2) <==> 48 <= c <= 57
    ensures BitOf(t[832 + c], 3) <==> 48 <= c <= 57 || 65 <= c <= 70 || 97 <= c <= 102
    ensures BitOf(t[832 + c], 4) <==> 48 <= c <= 57 || 65 <= c <= 90 || c == 95 || 97 <= c <= 122
    ensures BitOf(t[832 + c], 7) <==> c == 0 || c == 36 || c == 40 || c == 41 || c == 42 || c == 43 || c == 46 || c == 63 || c == 91 || c == 92 || c == 94 || c == 123 || c == 124
  {
    hide InMap, BitOf, IsMeta;
    assert InMap(t, CBITS, c) <==> Holds(CBIT_SPACE, c) by { MapSpelled(t, CBIT_SPACE, c); }
    MapSpelled(t, CBIT_XDIGIT, c);
    MapSpelled(t, CBIT_DIGIT, c);
    MapSpelled(t, CBIT_UPPER, c);
    MapSpelled(t, CBIT_LOWER, c);
    MapSpelled(t, CBIT_WORD, c);
    MapSpelled(t, CBIT_GRAPH, c);
    MapSpelled(t, CBIT_PRINT, c);
    MapSpelled(t, CBIT_PUNCT, c);
    MapSpelled(t, CBIT_CNTRL, c);
    assert Flags(TypeIn(t, c), c);
    MetaSpelled(c);
  }

  lemma MapSpelled(t: seq<int>, m: nat, c: byte)
    requires Built(t) && IsMap(m)
    ensures InMap(t, CBITS + m, c) <==> Holds(m, c)
  {
    assert ClassBit(t, m, c) <==> Holds(m, c);
  }

  lemma MetaSpelled(c: byte)
    ensures IsMeta(c) <==> c == 0 || c == 36 || c == 40 || c == 41 || c == 42 || c == 43 || c == 46 || c == 63 || c == 91 || c == 92 || c == 94 || c == 123 || c == 124
  {
    assert META[0] as int == 92 && META[1] as int == 42 && META[2] as int == 43 && META[3] as int == 63;
    assert META[4] as int == 123 && META[5] as int == 94 && META[6] as int == 46 && META[7] as int == 36;
    assert META[8] as int == 124 && META[9] as int == 40 && META[10] as int == 41 && META[11] as int == 91;
    assert |META| == 12;
  }

  /** Flipping the case twice changes nothing, and both cases of a byte have the
      same lower case. */
  lemma FlipTwice(t: seq<int>, c: byte)
    requires Built(t)
    ensures 0 <= t[FCC + c] < 256 && t[FCC + t[FCC + c]] == c && t[t[FCC + c]] == t[c]
    ensures t[c] == c || t[FCC + t[c]] == c
  {
    var d: byte := if IsLower(c) then ToUpper(c) else ToLower(c);
    assert t[FCC + c] == d;
    assert t[c] == ToLower(c) && t[d] == ToLower(d) && t[FCC + d] == if IsLower(d) then ToUpper(d) else ToLower(d);
  }
}
