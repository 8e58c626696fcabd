/** What the compiler notes about a pattern besides its code, told from the
    pattern as written: when it is anchored, when it starts lines, and which
    first and last bytes are noted for sure. */
module Facts {
  import opened Opcodes
  import opened Tree
  import opened Pattern
  import opened Translate
  import opened FirstBytes
  import opened Scan

  /** The item is there at least once. */
  predicate Required(q: Quant) { q.None? || q.min > 0 }

  // ---- Anchors ----

  /** The branch begins with one of two anchors, or with a repeat from zero on,
      without limit, of the character type `any`; or with a group that must be
      there, all of whose branches do. */
  predicate BeginsBranch(b: PBranch, op: int, op': int, any: int)
    decreases b
  {
    b.Then? &&
    match b.hd
    case Place(o) => o == op || o == op'
    case Char(x, q) => x == Type(any) && q.Quant? && q.min == 0 && q.max == -1
    case Group(_, alts, q) => Required(q) && BeginsAlts(alts, op, op', any)
  }

  predicate BeginsAlts(a: PAlts, op: int, op': int, any: int)
    decreases a
  {
    BeginsBranch(a.b, op, op', any) && (a.Or? ==> BeginsAlts(a.rest, op, op', any))
  }

  /** Every branch begins with ^ or \A, or with .* where the dot takes newlines. */
  predicate AtStart(a: PAlts) { BeginsAlts(a, OP_CIRC, OP_SOD, OP_ALLANY) }

  /** Every branch begins with ^, also of multiline mode, or with .*. */
  predicate AtLineStart(a: PAlts) { BeginsAlts(a, OP_CIRC, OP_CIRCM, OP_ANY) }

  /** What the two scans see in a branch, from its first item. */
  predicate Shows(b: Branch, start: bool, line: bool) {
    b.Cons? && (AnchoredBranch(b) <==> start) && (StartlineBranch(b) <==> line)
  }

  lemma AppendShows(a: Branch, b: Branch, start: bool, line: bool)
    requires Shows(a, start, line)
    ensures Shows(Append(a, b), start, line)
  {}

  lemma WrappedShows(b: Branch, start: bool, line: bool)
    requires Shows(b, start, line)
    ensures Shows(Wrapped(b), start, line)
  {
    assert AnchoredAlts(Last(b)) <==> start;
    assert StartlineAlts(Last(b)) <==> line;
  }

  lemma SingleShows(x: Single, min: nat, max: int, lazy: bool, possessive: bool)
    requires max == -1 || (0 < max && min <= max)
    ensures var star := min == 0 && max == -1;
            Shows(CodeSingle(x, min, max, lazy, possessive), star && x == Type(OP_ALLANY), star && x == Type(OP_ANY))
  {
    if min == 1 && max > 1 && possessive { WrappedShows(Cons(One(x), Cons(Rep(x, Upto(max - 1), false), Nil)), false, false); }
  }

  lemma CharShows(p: Piece, next: PBranch, n: nat)
    requires p.Char? && WFPiece(p)
    ensures var star := p.q.Quant? && p.q.min == 0 && p.q.max == -1;
            Shows(CodePiece(p, next, n), star && p.x == Type(OP_ALLANY), star && p.x == Type(OP_ANY))
  {
    hide AutoPossess.AutoPossessive, CodeSingle;
    if p.q.Quant? && p.x.Set? {
      WrappedShows(CodeClass(p.x, p.q.min, p.q.max, false), false, false);
    } else if p.q.Quant? {
      SingleShows(p.x, p.q.min, p.q.max, p.q.lazy, p.q.possessive || Possessify(p.x, p.q, next));
    }
  }

  /** The first copy of a group is the group itself, if it must be there. */
  lemma RepeatedShows(g: Item, min: nat, max: int, lazy: bool, possessive: bool)
    requires g.Bra? && (max == -1 || (0 < max && min <= max))
    ensures Shows(Repeated(g, min, max, lazy, possessive), min > 0 && AnchoredAlts(g.alts), min > 0 && StartlineAlts(g.alts))
  {
    hide AnchoredAlts, StartlineAlts, NullAlts;
  }

  lemma GroupShows(g: Item, q: Quant)
    requires g.Bra? && WFQuant(q)
    ensures Shows(CodeGroup(g, q), Required(q) && AnchoredAlts(g.alts), Required(q) && StartlineAlts(g.alts))
  {
    hide AnchoredAlts, StartlineAlts, Repeated, Wrapped;
    if q.Quant? {
      RepeatedShows(g, q.min, q.max, q.lazy, q.possessive);
      if q.possessive && q.max != -1 {
        RepeatedShows(g, q.min, q.max, false, false);
        WrappedShows(Repeated(g, q.min, q.max, false, false), Required(q) && AnchoredAlts(g.alts), Required(q) && StartlineAlts(g.alts));
      }
    }
  }

  lemma {:induction false} BranchShows(b: PBranch, n: nat)
    requires WFPBranch(b)
    ensures AnchoredBranch(CodeBranch(b, n)) <==> BeginsBranch(b, OP_CIRC, OP_SOD, OP_ALLANY)
    ensures StartlineBranch(CodeBranch(b, n)) <==> BeginsBranch(b, OP_CIRC, OP_CIRCM, OP_ANY)
    decreases b
  {
    hide AnchoredBranch, StartlineBranch, CodePiece;
    if b.Then? {
      var code := CodePiece(b.hd, b.tl, n);
      var start, line := BeginsBranch(b, OP_CIRC, OP_SOD, OP_ALLANY), BeginsBranch(b, OP_CIRC, OP_CIRCM, OP_ANY);
      PieceShows(b.hd, b.tl, n);
      AppendShows(code, CodeBranch(b.tl, n + Captures(b.hd)), start, line);
    } else {
      NilShows();
    }
  }

  lemma NilShows()
    ensures !AnchoredBranch(Nil) && !StartlineBranch(Nil)
  {}

  lemma {:induction false} PieceShows(p: Piece, next: PBranch, n: nat)
    requires WFPiece(p)
    ensures Shows(CodePiece(p, next, n),
                  BeginsBranch(Then(p, next), OP_CIRC, OP_SOD, OP_ALLANY), BeginsBranch(Then(p, next), OP_CIRC, OP_CIRCM, OP_ANY))
    decreases p
  {
    match p
    case Char(_, _) => CharShows(p, next, n);
    case Place(op) =>
    case Group(capturing, alts, q) =>
      hide Shows, CodeGroup;
      var m := if capturing then n + 1 else n;
      AltsShow(alts, m);
      GroupShows(Bra(if capturing then n + 1 else 0, CodeAlts(alts, m), Once), q);
  }

  /** is_anchored() and is_startline() tell from the code how the pattern as
      written begins. */
  lemma {:induction false} AltsShow(a: PAlts, n: nat)
    requires WFPAlts(a)
    ensures AnchoredAlts(CodeAlts(a, n)) <==> AtStart(a)
    ensures StartlineAlts(CodeAlts(a, n)) <==> AtLineStart(a)
    decreases a
  {
    hide AnchoredBranch, StartlineBranch, CodeBranch, BeginsBranch;
    BranchShows(a.b, n);
    if a.Or? { AltsShow(a.rest, n + BranchCaptures(a.b)); }
  }

  // ---- The first byte ----

  /** The branch begins with the literal `c`, or with a group that must be there,
      all of whose branches do. */
  predicate FirstInBranch(b: PBranch, c: byte)
    decreases b
  {
    b.Then? &&
    match b.hd
    case Char(x, q) => x == Chr(c) && Required(q)
    case Place(_) => false
    case Group(_, alts, q) => Required(q) && FirstInAlts(alts, c)
  }

  predicate FirstInAlts(a: PAlts, c: byte)
    decreases a
  {
    FirstInBranch(a.b, c) && (a.Or? ==> FirstInAlts(a.rest, c))
  }

  /** A first byte stays what it is. */
  lemma {:induction false} FirstKept(t: PBranch, b: Bytes, vary: bool)
    ensures b.first.Byte? ==> BranchBytes(t, b, vary).first == b.first
    decreases t
  {
    if t.Then? {
      PieceKept(t.hd, b, vary);
      FirstKept(t.tl, PieceBytes(t.hd, b, vary), vary || VaryPiece(t.hd));
    }
  }

  lemma PieceKept(p: Piece, b: Bytes, vary: bool)
    ensures b.first.Byte? ==> PieceBytes(p, b, vary).first == b.first
  {
    hide AltsBytes;
  }

  lemma {:induction false} FirstOfBranch(t: PBranch, c: byte, vary: bool)
    requires FirstInBranch(t, c)
    ensures BranchBytes(t, NOTHING, vary).first == Byte(c, false)
    decreases t
  {
    var b := PieceBytes(t.hd, NOTHING, vary);
    if t.hd.Group? { FirstOfAlts(t.hd.alts, c, vary); }
    FirstKept(t.tl, b, vary || VaryPiece(t.hd));
  }

  lemma {:induction false} FirstOfFold(x: Bytes, a: PAlts, c: byte, vary: bool)
    requires FirstInAlts(a, c) && x.first == Byte(c, false)
    ensures FoldBytes(x, a, vary).first == Byte(c, false)
    decreases a
  {
    hide BranchBytes, FirstInBranch;
    FirstOfBranch(a.b, c, vary);
    if a.Or? { FirstOfFold(Merge(x, BranchBytes(a.b, NOTHING, vary)), a.rest, c, vary || VaryBranch(a.b)); }
  }

  /** If all branches begin with the same literal it is noted as the first byte. */
  lemma {:induction false} FirstOfAlts(a: PAlts, c: byte, vary: bool)
    requires FirstInAlts(a, c)
    ensures AltsBytes(a, vary).first == Byte(c, false)
    decreases a
  {
    hide BranchBytes, FirstInBranch, FoldBytes;
    FirstOfBranch(a.b, c, vary);
    if a.Or? { FirstOfFold(BranchBytes(a.b, NOTHING, vary), a.rest, c, vary || VaryBranch(a.b)); }
  }

  // ---- The required byte ----

  /** The branch ends in the literal `c`, or in a group that must be there, all of
      whose branches do. */
  predicate LastInBranch(b: PBranch, c: byte)
    decreases b
  {
    b.Then? &&
    if b.tl.Then? then LastInBranch(b.tl, c)
    else
      match b.hd
      case Char(x, q) => x == Chr(c) && Required(q)
      case Place(_) => false
      case Group(_, alts, q) => Required(q) && LastInAlts(alts, c)
  }

  predicate LastInAlts(a: PAlts, c: byte)
    decreases a
  {
    LastInBranch(a.b, c) && (a.Or? ==> LastInAlts(a.rest, c))
  }

  /** There is some character, class or group before the last item. */
  predicate LongBranch(b: PBranch) {
    b.Then? && b.tl.Then? && (!b.hd.Place? || LongBranch(b.tl))
  }

  predicate LongAlts(a: PAlts) {
    LongBranch(a.b) && (a.Or? ==> LongAlts(a.rest))
  }

  /** `c` is the required byte, or the first byte and no other is required. */
  predicate Later(b: Bytes, c: byte) {
    if b.req.Byte? then b.req.c == c else b.first.Byte? && b.first.c == c
  }

  /** As long as there is no first byte nothing is required. */
  predicate Fresh(b: Bytes) { b.first.Unset? ==> !b.req.Byte? }

  lemma FreshPiece(p: Piece, b: Bytes, vary: bool)
    ensures Fresh(b) ==> Fresh(PieceBytes(p, b, vary))
    ensures !b.first.Unset? || !p.Place? ==> !PieceBytes(p, b, vary).first.Unset?
  {
    hide AltsBytes;
  }

  lemma {:induction false} LastOfBranch(t: PBranch, c: byte, b: Bytes, vary: bool)
    requires LastInBranch(t, c) && Fresh(b)
    ensures var r := BranchBytes(t, b, vary); Later(r, c) && (!b.first.Unset? || LongBranch(t) ==> r.req.Byte?)
    decreases t, 1
  {
    hide PieceBytes;
    var b' := PieceBytes(t.hd, b, vary);
    FreshPiece(t.hd, b, vary);
    if t.tl.Then? {
      LastOfBranch(t.tl, c, b', vary || VaryPiece(t.hd));
    } else {
      LastOfPiece(t, c, b, vary);
    }
  }

  lemma {:induction false} LastOfPiece(t: PBranch, c: byte, b: Bytes, vary: bool)
    requires LastInBranch(t, c) && t.tl.End? && Fresh(b)
    ensures var r := PieceBytes(t.hd, b, vary); Later(r, c) && (!b.first.Unset? ==> r.req.Byte?)
    decreases t, 0
  {
    hide AltsBytes;
    if t.hd.Group? { LastOfAlts(t.hd.alts, c, vary); }
  }

  lemma MergeLater(x: Bytes, y: Bytes, c: byte)
    requires Later(x, c) && Later(y, c)
    ensures Later(Merge(x, y), c) && (x.req.Byte? && y.req.Byte? ==> Merge(x, y).req.Byte?)
  {}

  lemma {:induction false} LastOfFold(x: Bytes, a: PAlts, c: byte, vary: bool)
    requires LastInAlts(a, c) && Later(x, c)
    ensures var r := FoldBytes(x, a, vary); Later(r, c) && (x.req.Byte? && LongAlts(a) ==> r.req.Byte?)
    decreases a, 0
  {
    hide BranchBytes, LastInBranch, LongBranch, Merge, Later;
    var y := BranchBytes(a.b, NOTHING, vary);
    LastOfBranch(a.b, c, NOTHING, vary);
    MergeLater(x, y, c);
    if a.Or? { LastOfFold(Merge(x, y), a.rest, c, vary || VaryBranch(a.b)); }
  }

  /** If all branches end in the same literal it is noted as the required byte,
      or else it is the first byte; it is required for sure where there is more
      than it in every branch. */
  lemma {:induction false} LastOfAlts(a: PAlts, c: byte, vary: bool)
    requires LastInAlts(a, c)
    ensures var r := AltsBytes(a, vary); Later(r, c) && (LongAlts(a) ==> r.req.Byte?)
    decreases a, 0
  {
    hide BranchBytes, LastInBranch, LongBranch, FoldBytes, Later;
    LastOfBranch(a.b, c, NOTHING, vary);
    if a.Or? { LastOfFold(BranchBytes(a.b, NOTHING, vary), a.rest, c, vary || VaryBranch(a.b)); }
  }

  // ---- After an item of variable length ----

  /** The branch ends in a literal that must be there, and a quantifier before it
      allows more than one number of repeats. */
  predicate VariesBefore(b: PBranch) {
    b.Then? && b.tl.Then? && ((VaryPiece(b.hd) && EndsPlainly(b.tl)) || VariesBefore(b.tl))
  }

  predicate EndsPlainly(b: PBranch) {
    b.Then? && if b.tl.Then? then EndsPlainly(b.tl) else b.hd.Char? && b.hd.x.Chr? && Required(b.hd.q)
  }


  lemma {:induction false} VaryOfBranch(t: PBranch, b: Bytes, vary: bool)
    requires EndsPlainly(t) && (vary || VariesBefore(t))
    ensures var r := BranchBytes(t, b, vary).req; !b.first.Unset? || LongBranch(t) ==> r.Byte? && r.vary
    decreases t
  {
    hide PieceBytes;
    var b' := PieceBytes(t.hd, b, vary);
    FreshPiece(t.hd, b, vary);
    if t.tl.Then? {
      VaryOfBranch(t.tl, b', vary || VaryPiece(t.hd));
    } else if !b.first.Unset? {
      VaryOfPiece(t.hd, b, vary);
    }
  }

  lemma VaryOfPiece(p: Piece, b: Bytes, vary: bool)
    requires p.Char? && p.x.Chr? && Required(p.q) && !b.first.Unset?
    ensures PieceBytes(p, b, vary).req == Byte(p.x.c, vary)
  {}

  lemma {:induction false} VaryOfFold(x: Bytes, a: PAlts, c: byte, vary: bool)
    requires LastInAlts(a, c) && LongAlts(a) && x.req == Byte(c, true)
    ensures FoldBytes(x, a, vary).req == Byte(c, true)
    decreases a
  {
    hide BranchBytes, LastInBranch, LongBranch;
    LastOfBranch(a.b, c, NOTHING, vary);
    if a.Or? { VaryOfFold(Merge(x, BranchBytes(a.b, NOTHING, vary)), a.rest, c, vary || VaryBranch(a.b)); }
  }

  /** Behind an item of variable length in the first branch the required byte is
      marked as such, which makes it count for an anchored pattern too. */
  lemma VaryOfAlts(a: PAlts, c: byte)
    requires LastInAlts(a, c) && LongAlts(a) && EndsPlainly(a.b) && VariesBefore(a.b)
    ensures AltsBytes(a, false).req == Byte(c, true)
  {
    hide BranchBytes, LastInBranch, LongBranch, FoldBytes, EndsPlainly, VariesBefore;
    LastOfBranch(a.b, c, NOTHING, false);
    VaryOfBranch(a.b, NOTHING, false);
    if a.Or? { VaryOfFold(BranchBytes(a.b, NOTHING, false), a.rest, c, false || VaryBranch(a.b)); }
  }

  /** Where nothing is of variable length no byte is marked. */
  predicate Unmarked(b: Bytes) {
    (b.first.Byte? ==> !b.first.vary) && (b.req.Byte? ==> !b.req.vary)
  }

  lemma {:induction false} UnmarkedBranch(t: PBranch, b: Bytes)
    requires !VaryBranch(t) && Unmarked(b)
    ensures Unmarked(BranchBytes(t, b, false))
    decreases t, 0
  {
    if t.Then? {
      UnmarkedPiece(t.hd, b);
      UnmarkedBranch(t.tl, PieceBytes(t.hd, b, false));
    }
  }

  lemma {:induction false} UnmarkedPiece(p: Piece, b: Bytes)
    requires !VaryPiece(p) && Unmarked(b)
    ensures Unmarked(PieceBytes(p, b, false))
    decreases p, 1
  {
    hide AltsBytes;
    if p.Group? { UnmarkedAlts(p.alts); }
  }

  lemma {:induction false} UnmarkedFold(x: Bytes, a: PAlts)
    requires !VaryAlts(a) && Unmarked(x)
    ensures Unmarked(FoldBytes(x, a, false))
    decreases a, 0
  {
    hide BranchBytes, VaryBranch;
    UnmarkedBranch(a.b, NOTHING);
    if a.Or? { UnmarkedFold(Merge(x, BranchBytes(a.b, NOTHING, false)), a.rest); }
  }

  lemma {:induction false} UnmarkedAlts(a: PAlts)
    requires !VaryAlts(a)
    ensures Unmarked(AltsBytes(a, false))
    decreases a, 1
  {
    hide BranchBytes, VaryBranch, FoldBytes;
    UnmarkedBranch(a.b, NOTHING);
    if a.Or? { UnmarkedFold(BranchBytes(a.b, NOTHING, false), a.rest); }
  }

  // ---- All together ----

  /** A byte of the record of first and required bytes, -1 if there is none. */
  function ByteOr(r: Req): int { if r.Byte? then r.c else -1 }

  /** What is noted for sure: the anchors and line starts that there are; the
      literal that all branches begin with; the literal that all of them end in,
      which for an anchored pattern counts only behind something of variable
      length. */
  predicate Noted(a: PAlts, anchored: bool, startline: bool, first_byte: int, req_byte: int) {
    && (anchored <==> AtStart(a))
    && (startline <==> !anchored && first_byte < 0 && AtLineStart(a))
    && (anchored ==> first_byte == -1 && (!VaryAlts(a) ==> req_byte == -1))
    && (!anchored ==> forall c: byte :: FirstInAlts(a, c) ==> first_byte == c)
    && (!anchored ==> forall c: byte :: LastInAlts(a, c) ==> req_byte == c || (req_byte == -1 && first_byte == c && !LongAlts(a)))
    && (EndsPlainly(a.b) && VariesBefore(a.b) && LongAlts(a) ==> forall c: byte :: LastInAlts(a, c) ==> req_byte == c)
  }

  lemma NotedRight(a: PAlts, anchored: bool, startline: bool, first_byte: int, req_byte: int)
    requires WFPAlts(a)
    requires anchored == AnchoredAlts(CodeAlts(a, 0))
    requires startline == (!anchored && !AltsBytes(a, false).first.Byte? && StartlineAlts(CodeAlts(a, 0)))
    requires first_byte == if anchored then -1 else ByteOr(AltsBytes(a, false).first)
    requires req_byte ==
             if AltsBytes(a, false).req.Byte? && (!anchored || AltsBytes(a, false).req.vary) then AltsBytes(a, false).req.c else -1
    ensures Noted(a, anchored, startline, first_byte, req_byte)
  {
    hide AnchoredAlts, StartlineAlts, AltsBytes, CodeAlts, AtStart, AtLineStart, FirstInAlts, LastInAlts, LongAlts, EndsPlainly, VariesBefore, VaryAlts;
    AltsShow(a, 0);
    if !VaryAlts(a) { UnmarkedAlts(a); }
    forall c: byte | FirstInAlts(a, c) ensures AltsBytes(a, false).first == Byte(c, false) { FirstOfAlts(a, c, false); }
    forall c: byte | LastInAlts(a, c)
      ensures Later(AltsBytes(a, false), c) && (LongAlts(a) ==> AltsBytes(a, false).req.Byte?)
      ensures EndsPlainly(a.b) && VariesBefore(a.b) && LongAlts(a) ==> AltsBytes(a, false).req == Byte(c, true)
    {
      LastOfAlts(a, c, false);
      if EndsPlainly(a.b) && VariesBefore(a.b) && LongAlts(a) { VaryOfAlts(a, c); }
    }
  }
}
