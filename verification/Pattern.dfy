/** Patterns as written: items with counted, greedy or lazy quantifiers. What a
    pattern matches is said here without reference to its compiled form. */
module Pattern {
  import opened Opcodes
  import opened Tree

  /** `max` is -1 when there is no upper limit. `seen` says whether the text
      shows that the item may be left out: it is written *, ? or {0, and not,
      for instance, {00,1}. */
  datatype Quant = None | Quant(min: nat, max: int, lazy: bool, possessive: bool, seen: bool)

  datatype Piece =
    | Char(x: Single, q: Quant)
    | Place(op: int)
    | Group(capturing: bool, alts: PAlts, q: Quant)

  datatype PBranch = End | Then(hd: Piece, tl: PBranch)

  datatype PAlts = Only(b: PBranch) | Or(b: PBranch, rest: PAlts)

  // ---- Fragment: every quantifier but {0} ----

  predicate WFQuant(q: Quant) {
    q.Quant? ==> (q.max == -1 || (0 < q.max && q.min <= q.max)) && !(q.lazy && q.possessive) && (q.seen ==> q.min == 0)
  }

  /** Written as possessive: nothing that was taken is given back. */
  predicate Keeps(q: Quant) { q.Quant? && q.possessive }

  predicate WFPiece(p: Piece) {
    match p
    case Char(x, q) => WFSingle(x) && WFQuant(q)
    case Place(op) => IsZeroOp(op)
    case Group(_, alts, q) => WFPAlts(alts) && WFQuant(q)
  }

  predicate WFPBranch(b: PBranch) {
    match b
    case End => true
    case Then(hd, tl) => WFPiece(hd) && WFPBranch(tl)
  }

  predicate WFPAlts(a: PAlts) {
    WFPBranch(a.b) && (a.Or? ==> WFPAlts(a.rest))
  }

  // ---- What is covered by the matchers ----

  /** Where the compiler has an opcode for a possessive quantifier; otherwise it
      puts atomic brackets around the item, which the matchers here do not
      cover. */
  predicate CoveredPiece(p: Piece) {
    match p
    case Char(x, q) => Keeps(q) ==> !x.Set? && !(q.min == 1 && q.max > 1)
    case Place(_) => true
    case Group(_, alts, q) => !Keeps(q) && CoveredAlts(alts)
  }

  predicate CoveredBranch(b: PBranch) {
    b.Then? ==> CoveredPiece(b.hd) && CoveredBranch(b.tl)
  }

  predicate CoveredAlts(a: PAlts) {
    CoveredBranch(a.b) && (a.Or? ==> CoveredAlts(a.rest))
  }

  // ---- What a pattern matches ----

  predicate Times(q: Quant, n: nat) {
    match q
    case None => n == 1
    case Quant(min, max, _, _, _) => min <= n && (max < 0 || n <= max)
  }

  /** A possessive quantifier has taken all the bytes that it can. */
  predicate Taken(p: Piece, s: seq<byte>, n: nat, j: nat) {
    p.Char? && Keeps(p.q) && WFSingle(p.x) ==> n == p.q.max || j >= |s| || !Hit(p.x, s[j])
  }

  /** One occurrence of the item, its quantifier apart. */
  ghost predicate OnceL(p: Piece, s: seq<byte>, i: nat, j: nat)
    decreases p, 0, 0
  {
    match p
    case Char(x, _) => WFSingle(x) && i < |s| && j == i + 1 && Hit(x, s[i])
    case Place(op) => i == j <= |s| && ZeroHolds(op, s, i)
    case Group(_, alts, _) => PAltsL(alts, s, i, j)
  }

  ghost predicate OftenL(p: Piece, s: seq<byte>, n: nat, i: nat, j: nat)
    decreases p, 1, n
  {
    if n == 0 then i == j <= |s|
    else exists m: nat :: i <= m <= j && OnceL(p, s, i, m) && OftenL(p, s, n - 1, m, j)
  }

  ghost predicate PieceL(p: Piece, s: seq<byte>, i: nat, j: nat)
    decreases p, 2, 0
  {
    if p.Place? then OnceL(p, s, i, j)
    else exists n: nat :: Times(p.q, n) && OftenL(p, s, n, i, j) && Taken(p, s, n, j)
  }

  ghost predicate PBranchL(b: PBranch, s: seq<byte>, i: nat, j: nat)
    decreases b, 0, 0
  {
    match b
    case End => i == j <= |s|
    case Then(hd, tl) => exists m: nat :: i <= m <= j && PieceL(hd, s, i, m) && PBranchL(tl, s, m, j)
  }

  ghost predicate PAltsL(a: PAlts, s: seq<byte>, i: nat, j: nat)
    decreases a, 0, 0
  {
    PBranchL(a.b, s, i, j) || (a.Or? && PAltsL(a.rest, s, i, j))
  }

  // ---- Unfolding ----

  lemma OftenSplit(p: Piece, s: seq<byte>, n: nat, i: nat, j: nat) returns (m: nat)
    requires n > 0 && OftenL(p, s, n, i, j)
    ensures i <= m <= j && OnceL(p, s, i, m) && OftenL(p, s, n - 1, m, j)
  {
    hide OnceL;
    m :| i <= m <= j && OnceL(p, s, i, m) && OftenL(p, s, n - 1, m, j);
  }

  lemma {:induction false} OftenRange(p: Piece, s: seq<byte>, n: nat, i: nat, j: nat)
    requires OftenL(p, s, n, i, j)
    ensures i <= j <= |s|
    decreases n
  {
    hide OnceL;
    if n > 0 {
      var m := OftenSplit(p, s, n, i, j);
      OftenRange(p, s, n - 1, m, j);
    }
  }

  lemma PieceRange(p: Piece, s: seq<byte>, i: nat, j: nat)
    requires PieceL(p, s, i, j)
    ensures i <= j <= |s|
  {
    hide OftenL;
    if !p.Place? {
      var n: nat :| Times(p.q, n) && OftenL(p, s, n, i, j);
      OftenRange(p, s, n, i, j);
    }
  }

  lemma {:induction false} PBranchRange(b: PBranch, s: seq<byte>, i: nat, j: nat)
    requires PBranchL(b, s, i, j)
    ensures i <= j <= |s|
    decreases b
  {
    hide PieceL;
    if b.Then? {
      var m := PUncons(b, s, i, j);
      PBranchRange(b.tl, s, m, j);
    }
  }

  lemma {:induction false} PAltsRange(a: PAlts, s: seq<byte>, i: nat, j: nat)
    requires PAltsL(a, s, i, j)
    ensures i <= j <= |s|
    decreases a
  {
    hide PBranchL;
    if PBranchL(a.b, s, i, j) {
      PBranchRange(a.b, s, i, j);
    } else {
      PAltsRange(a.rest, s, i, j);
    }
  }

  lemma PUncons(b: PBranch, s: seq<byte>, i: nat, j: nat) returns (m: nat)
    requires b.Then? && PBranchL(b, s, i, j)
    ensures i <= m <= j && PieceL(b.hd, s, i, m) && PBranchL(b.tl, s, m, j)
  {
    hide PieceL;
    m :| i <= m <= j && PieceL(b.hd, s, i, m) && PBranchL(b.tl, s, m, j);
  }
}
