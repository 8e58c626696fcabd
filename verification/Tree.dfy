/** The structure of compiled code, as a tree, with two readings: where each
    node lies in the byte-code (`ItemAt`, `BranchAt`, `AltsAt`) and which
    stretches of a subject it matches (`ItemL`, `BranchL`, `AltsL`, `Iter`). */
module Tree {
  import opened Opcodes

  /** What one byte is tested against. */
  datatype Single = Chr(c: byte) | Type(op: int) | Set(bits: seq<int>)

  /** The last four never give a byte back. */
  datatype Kind = Star | Plus | Query | Upto(n: nat) | Exact(n: nat) | Range(lo: nat, hi: nat)
    | PosStar | PosPlus | PosQuery | PosUpto(n: nat)

  /** The closing ket: plain, or an unlimited repeat that is greedy or lazy and
      whose opening bracket may be marked as possibly matching nothing. Possess
      is an unlimited possessive repeat, Atomic a plain bracket that is never
      re-entered; these two are emitted, but not covered by the matchers here. */
  datatype Ket = Once | Again(lazy: bool, marked: bool) | Atomic | Possess(marked: bool)

  datatype Item =
    | One(x: Single)
    | Zero(op: int)
    | Rep(x: Single, kind: Kind, lazy: bool)
    | Bra(cap: nat, alts: Alts, ket: Ket)
    | BraZero(lazy: bool, bra: Item)

  datatype Branch = Nil | Cons(hd: Item, tl: Branch)

  datatype Alts = Last(b: Branch) | More(b: Branch, rest: Alts)

  // ---- Well-formed trees ----

  predicate WFSingle(x: Single) {
    match x
    case Chr(_) => true
    case Type(op) => IsTypeOp(op)
    case Set(bits) => |bits| == 32
  }

  predicate WFKind(x: Single, k: Kind) {
    match k
    case Upto(n) => !x.Set? && n > 0
    case Exact(n) => !x.Set? && n > 0
    case Range(lo, hi) => x.Set? && (if hi == 0 then lo > 0 else lo <= hi)
    case PosStar => !x.Set?
    case PosPlus => !x.Set?
    case PosQuery => !x.Set?
    case PosUpto(n) => !x.Set? && n > 0
    case _ => true
  }

  predicate IsPossessive(it: Item) {
    it.Rep? && (it.kind.PosStar? || it.kind.PosPlus? || it.kind.PosQuery? || it.kind.PosUpto?)
  }

  ghost predicate Disjoint(x: Single, y: Single)
    requires WFSingle(x) && WFSingle(y)
  {
    forall c: byte :: !(Hit(x, c) && Hit(y, c))
  }

  predicate IsUnlimited(ket: Ket) { ket.Again? || ket.Possess? }

  /** What the compiler emits: above all, an unlimited group whose bracket is
      not marked cannot match nothing. */
  predicate ShapedItem(it: Item) {
    match it
    case One(x) => WFSingle(x)
    case Zero(op) => IsZeroOp(op)
    case Rep(x, kind, lazy) => WFSingle(x) && WFKind(x, kind) && (IsPossessive(it) ==> !lazy)
    case Bra(cap, alts, ket) =>
      ShapedAlts(alts) && (IsUnlimited(ket) && !ket.marked ==> !NullAlts(alts)) && (ket.Atomic? ==> cap == 0)
    case BraZero(lazy, bra) => bra.Bra? && ShapedItem(bra) && (bra.ket.Possess? ==> !lazy)
  }

  predicate ShapedBranch(b: Branch) {
    b.Cons? ==> ShapedItem(b.hd) && ShapedBranch(b.tl)
  }

  predicate ShapedAlts(a: Alts) {
    ShapedBranch(a.b) && (a.More? ==> ShapedAlts(a.rest))
  }

  /** The same without atomic and possessive brackets: what the matchers here
      cover. */
  predicate WFItem(it: Item) {
    match it
    case One(x) => WFSingle(x)
    case Zero(op) => IsZeroOp(op)
    case Rep(x, kind, lazy) => WFSingle(x) && WFKind(x, kind) && (IsPossessive(it) ==> !lazy)
    case Bra(_, alts, ket) =>
      WFAlts(alts) && !ket.Atomic? && !ket.Possess? && (ket.Again? && !ket.marked ==> !NullAlts(alts))
    case BraZero(_, bra) => bra.Bra? && WFItem(bra)
  }

  predicate WFBranch(b: Branch) {
    match b
    case Nil => true
    case Cons(hd, tl) => WFItem(hd) && WFBranch(tl)
  }

  predicate WFAlts(a: Alts) {
    match a
    case Last(b) => WFBranch(b)
    case More(b, rest) => WFBranch(b) && WFAlts(rest)
  }

  // ---- Could it match nothing? (the scan of could_be_empty_branch) ----

  predicate NullItem(it: Item) {
    match it
    case One(_) => false
    case Zero(_) => true
    case Rep(_, kind, _) => Min(kind) == 0
    case Bra(_, alts, ket) => (IsUnlimited(ket) && ket.marked) || NullAlts(alts)
    case BraZero(_, _) => true
  }

  predicate NullBranch(b: Branch) {
    match b
    case Nil => true
    case Cons(hd, tl) => NullItem(hd) && NullBranch(tl)
  }

  predicate NullAlts(a: Alts) {
    match a
    case Last(b) => NullBranch(b)
    case More(b, rest) => NullBranch(b) || NullAlts(rest)
  }

  // ---- Sizes and layout ----

  function SingleSize(x: Single): nat {
    match x
    case Chr(_) => 2
    case Type(_) => 1
    case Set(_) => 33
  }

  predicate HasCount(k: Kind) { k.Upto? || k.Exact? || k.PosUpto? }

  function RepSize(x: Single, k: Kind): nat {
    match x
    case Set(_) => if k.Range? then 38 else 34
    case _ => if HasCount(k) then 4 else 2
  }

  function HeadSize(cap: nat): nat {
    if cap == 0 then 1 + LINK_SIZE else 3 + LINK_SIZE
  }

  function ItemSize(it: Item): nat
    decreases it
  {
    match it
    case One(x) => SingleSize(x)
    case Zero(_) => 1
    case Rep(x, k, _) => RepSize(x, k)
    case Bra(cap, alts, _) => AltsSize(HeadSize(cap), alts) + 1 + LINK_SIZE
    case BraZero(_, bra) => 1 + ItemSize(bra)
  }

  function BranchSize(b: Branch): nat
    decreases b
  {
    match b
    case Nil => 0
    case Cons(hd, tl) => ItemSize(hd) + BranchSize(tl)
  }

  /** Cells from the header of the first branch up to the closing ket. */
  function AltsSize(h: nat, a: Alts): (n: nat)
    ensures n >= h
    decreases a
  {
    match a
    case Last(b) => h + BranchSize(b)
    case More(b, rest) => h + BranchSize(b) + AltsSize(1 + LINK_SIZE, rest)
  }

  function BraOp(cap: nat, ket: Ket): int {
    var op := if cap == 0 then OP_BRA else OP_CBRA;
    match ket
    case Once => op
    case Again(_, marked) => if marked then op + (OP_SBRA - OP_BRA) else op
    case Atomic => OP_ONCE
    case Possess(marked) => if marked then op + 1 + (OP_SBRA - OP_BRA) else op + 1
  }

  function KetOp(ket: Ket): int {
    match ket
    case Again(lazy, _) => if lazy then OP_KETRMIN else OP_KETRMAX
    case Possess(_) => OP_KETRPOS
    case _ => OP_KET
  }

  /** The zero-repeat prefix. */
  function ZeroOp(lazy: bool, bra: Item): int {
    if bra.Bra? && bra.ket.Possess? then OP_BRAPOSZERO else OP_BRAZERO + Bit(lazy)
  }

  /** Offset of the repeat opcode inside its family of greedy/lazy pairs. */
  function KindOffset(k: Kind): int {
    match k
    case Star => 0
    case Plus => 2
    case Query => 4
    case Upto(_) => 6
    case Exact(_) => 8
    case Range(_, _) => 6
    case PosStar => 9
    case PosPlus => 10
    case PosQuery => 11
    case PosUpto(_) => 12
  }

  function Bit(b: bool): int { if b then 1 else 0 }

  predicate SingleAt(code: seq<int>, p: nat, x: Single) {
    p + SingleSize(x) <= |code| &&
    match x
    case Chr(c) => code[p] == OP_CHAR && code[p + 1] == c
    case Type(op) => code[p] == op
    case Set(bits) => code[p] == OP_CLASS && code[p + 1..p + 33] == bits
  }

  /** The first repeat opcode of the family that serves `x`. */
  function RepBase(x: Single): int {
    match x
    case Chr(_) => OP_STAR
    case Type(_) => OP_TYPESTAR
    case Set(_) => OP_CRSTAR
  }

  /** A repeated character or type follows its repeat opcode and count; the
      repeat of a class follows the class. An EXACT has no lazy form. */
  predicate RepAt(code: seq<int>, p: nat, x: Single, k: Kind, lazy: bool) {
    p + RepSize(x, k) <= |code| &&
    var op := RepBase(x) + KindOffset(k) + (if k.Exact? then 0 else Bit(lazy));
    match x
    case Chr(c) =>
      code[p] == op && CountAt(code, p, k) && code[p + RepSize(x, k) - 1] == c
    case Type(t) =>
      code[p] == op && CountAt(code, p, k) && code[p + RepSize(x, k) - 1] == t
    case Set(_) =>
      SingleAt(code, p, x) && code[p + 33] == op &&
      (k.Range? ==> Get(code, p + 34) == k.lo && Get(code, p + 36) == k.hi)
  }

  predicate CountAt(code: seq<int>, p: nat, k: Kind) {
    HasCount(k) ==> p + 2 < |code| && Get(code, p + 1) == k.n
  }

  predicate ItemAt(code: seq<int>, p: nat, it: Item)
    decreases it
  {
    p + ItemSize(it) <= |code| &&
    match it
    case One(x) => SingleAt(code, p, x)
    case Zero(op) => code[p] == op
    case Rep(x, k, lazy) => RepAt(code, p, x, k, lazy)
    case Bra(cap, alts, ket) =>
      var h := HeadSize(cap);
      var k := p + AltsSize(h, alts);
      code[p] == BraOp(cap, ket) && (cap > 0 ==> Get(code, p + 1 + LINK_SIZE) == cap) &&
      AltsAt(code, p, h, alts) &&
      code[k] == KetOp(ket) && Get(code, k + 1) == k - p
    case BraZero(lazy, bra) =>
      code[p] == ZeroOp(lazy, bra) && ItemAt(code, p + 1, bra)
  }

  predicate BranchAt(code: seq<int>, p: nat, b: Branch)
    decreases b
  {
    p + BranchSize(b) <= |code| &&
    match b
    case Nil => true
    case Cons(hd, tl) => ItemAt(code, p, hd) && BranchAt(code, p + ItemSize(hd), tl)
  }

  /** The branches that follow the header of `h` cells at `p`; each header
      holds the distance to the next header or to the ket. */
  predicate AltsAt(code: seq<int>, p: nat, h: nat, a: Alts)
    decreases a
  {
    h >= 1 + LINK_SIZE && p + AltsSize(h, a) <= |code| &&
    BranchAt(code, p + h, a.b) && Get(code, p + 1) == h + BranchSize(a.b) &&
    (a.More? ==>
       var q := p + h + BranchSize(a.b);
       code[q] == OP_ALT && AltsAt(code, q, 1 + LINK_SIZE, a.rest))
  }

  // ---- What is matched ----

  function Min(k: Kind): nat {
    match k
    case Star => 0
    case Plus => 1
    case Query => 0
    case Upto(_) => 0
    case Exact(n) => n
    case Range(lo, _) => lo
    case PosStar => 0
    case PosPlus => 1
    case PosQuery => 0
    case PosUpto(_) => 0
  }

  /** The most repeats allowed; -1 stands for no limit. */
  function Max(k: Kind): int {
    match k
    case Star => -1
    case Plus => -1
    case Query => 1
    case Upto(n) => n
    case Exact(n) => n
    case Range(_, hi) => if hi == 0 then -1 else hi
    case PosStar => -1
    case PosPlus => -1
    case PosQuery => 1
    case PosUpto(n) => n
  }

  predicate Hit(x: Single, c: byte)
    requires WFSingle(x)
  {
    match x
    case Chr(d) => c == d
    case Type(op) => TypeHit(op, c)
    case Set(bits) => BitAt(bits, 0, c)
  }

  /** Every byte of s[i..j] is one that `x` matches. */
  ghost predicate Run(x: Single, s: seq<byte>, i: nat, j: nat) {
    WFSingle(x) && i <= j <= |s| && forall t :: i <= t < j ==> Hit(x, s[t])
  }

  /** A repeat that started at `i` cannot go on at `j`. */
  predicate Full(x: Single, hi: int, s: seq<byte>, i: nat, j: nat)
    requires WFSingle(x)
  {
    j - i == hi || j >= |s| || !Hit(x, s[j])
  }

  predicate Allowed(k: Kind, n: int) {
    Min(k) <= n && (Max(k) < 0 || n <= Max(k))
  }

  ghost predicate ItemL(it: Item, s: seq<byte>, i: nat, j: nat)
    decreases it, 0, 0
  {
    i <= j <= |s| &&
    match it
    case One(x) => j == i + 1 && Run(x, s, i, j)
    case Zero(op) => i == j && ZeroHolds(op, s, i)
    case Rep(x, k, _) => Run(x, s, i, j) && Allowed(k, j - i) && (IsPossessive(it) ==> Full(x, Max(k), s, i, j))
    case Bra(_, alts, ket) =>
      if ket.Again? then exists n: nat :: n > 0 && Iter(alts, s, n, i, j)
      else AltsL(alts, s, i, j)
    case BraZero(_, bra) => i == j || ItemL(bra, s, i, j)
  }

  ghost predicate BranchL(b: Branch, s: seq<byte>, i: nat, j: nat)
    decreases b, 0, 0
  {
    i <= j <= |s| &&
    match b
    case Nil => i == j
    case Cons(hd, tl) => exists m: nat :: i <= m <= j && ItemL(hd, s, i, m) && BranchL(tl, s, m, j)
  }

  ghost predicate AltsL(a: Alts, s: seq<byte>, i: nat, j: nat)
    decreases a, 0, 0
  {
    BranchL(a.b, s, i, j) || (a.More? && AltsL(a.rest, s, i, j))
  }

  /** `n` rounds of the alternatives, one after another. */
  ghost predicate Iter(a: Alts, s: seq<byte>, n: nat, i: nat, j: nat)
    decreases a, 1, n
  {
    if n == 0 then i == j <= |s|
    else exists m: nat :: i <= m <= j && AltsL(a, s, i, m) && Iter(a, s, n - 1, m, j)
  }
}
