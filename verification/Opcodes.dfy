/** The byte-code alphabet shared by the compiler and the two matchers: opcode
    numbers, the two-cell link and count fields, and the byte predicates behind
    the single-character opcodes. */
module Opcodes {

  type byte = b: int | 0 <= b < 256

  const LINK_SIZE := 2

  const OP_END := 0
  const OP_SOD := 1
  const OP_NOT_DIGIT := 6
  const OP_DIGIT := 7
  const OP_NOT_WHITESPACE := 8
  const OP_WHITESPACE := 9
  const OP_NOT_WORDCHAR := 10
  const OP_WORDCHAR := 11
  const OP_ANY := 12
  const OP_ALLANY := 13
  const OP_EODN := 23
  const OP_EOD := 24
  const OP_CIRC := 25
  const OP_CIRCM := 26
  const OP_DOLL := 27
  const OP_DOLLM := 28
  const OP_CHAR := 29
  const OP_STAR := 33
  const OP_PLUS := 35
  const OP_QUERY := 37
  const OP_UPTO := 39
  const OP_EXACT := 41
  const OP_POSSTAR := 42
  const OP_POSPLUS := 43
  const OP_POSQUERY := 44
  const OP_POSUPTO := 45
  const OP_TYPESTAR := 85
  const OP_TYPEPLUS := 87
  const OP_TYPEQUERY := 89
  const OP_TYPEUPTO := 91
  const OP_TYPEEXACT := 93
  const OP_TYPEPOSSTAR := 94
  const OP_TYPEPOSPLUS := 95
  const OP_TYPEPOSQUERY := 96
  const OP_TYPEPOSUPTO := 97
  const OP_CRSTAR := 98
  const OP_CRPLUS := 100
  const OP_CRQUERY := 102
  const OP_CRRANGE := 104
  const OP_CRMINRANGE := 105
  const OP_CLASS := 106
  const OP_ALT := 113
  const OP_KET := 114
  const OP_KETRMAX := 115
  const OP_KETRMIN := 116
  const OP_KETRPOS := 117
  const OP_REVERSE := 118
  const OP_ONCE := 123
  const OP_BRA := 125
  const OP_BRAPOS := 126
  const OP_CBRA := 127
  const OP_CBRAPOS := 128
  const OP_SBRA := 130
  const OP_SBRAPOS := 131
  const OP_SCBRA := 132
  const OP_SCBRAPOS := 133
  const OP_BRAZERO := 140
  const OP_BRAMINZERO := 141
  const OP_BRAPOSZERO := 142

  const CHAR_NL: byte := 10

  /** The number held in the two cells at `p`: a link (GET) or a count (GET2). */
  function Get(code: seq<int>, p: nat): int
    requires p + 1 < |code|
  {
    code[p] * 256 + code[p + 1]
  }

  predicate IsDigit(c: byte) { '0' as int <= c <= '9' as int }

  predicate IsAlpha(c: byte) {
    'A' as int <= c <= 'Z' as int || 'a' as int <= c <= 'z' as int
  }

  predicate IsWord(c: byte) { IsAlpha(c) || IsDigit(c) || c == '_' as int }

  /** White space for \s in the C locale: isspace without VT. */
  predicate IsSpace(c: byte) { c == 9 || c == 10 || c == 12 || c == 13 || c == 32 }

  /** The opcodes that match one byte by its type. */
  predicate IsTypeOp(op: int) {
    OP_NOT_DIGIT <= op <= OP_ALLANY
  }

  predicate TypeHit(op: int, c: byte)
  {
    if op == OP_NOT_DIGIT then !IsDigit(c)
    else if op == OP_DIGIT then IsDigit(c)
    else if op == OP_NOT_WHITESPACE then !IsSpace(c)
    else if op == OP_WHITESPACE then IsSpace(c)
    else if op == OP_NOT_WORDCHAR then !IsWord(c)
    else if op == OP_WORDCHAR then IsWord(c)
    else if op == OP_ANY then c != CHAR_NL
    else true
  }

  function Pow2(n: nat): (r: nat)
    ensures r > 0
  {
    if n == 0 then 1 else 2 * Pow2(n - 1)
  }

  /** Bit `c` of the 32-cell bitmap stored at `p`. */
  predicate BitAt(code: seq<int>, p: nat, c: byte)
    requires p + 32 <= |code|
  {
    (code[p + c / 8] / Pow2(c % 8)) % 2 == 1
  }

  /** The opcodes that test the position and consume nothing. */
  predicate IsZeroOp(op: int) {
    op == OP_SOD || OP_EODN <= op <= OP_DOLLM
  }

  /** When a zero-width opcode lets the match go on at position `i`. */
  predicate ZeroHolds(op: int, s: seq<byte>, i: nat)
    requires i <= |s|
  {
    if op == OP_SOD || op == OP_CIRC then i == 0
    else if op == OP_CIRCM then i == 0 || (i != |s| && s[i - 1] == CHAR_NL)
    else if op == OP_EOD then i == |s|
    else if op == OP_DOLLM then i == |s| || s[i] == CHAR_NL
    else i == |s| || (i == |s| - 1 && s[i] == CHAR_NL)
  }
}
