/** The first byte and the required byte that the compiler works out for a
    pattern, and the proof that every match has them. */
module FirstBytes {
  import opened Opcodes
  import opened Pattern

  /** Nothing matched yet (REQ_UNSET), no fixed byte (REQ_NONE), or a byte;
      `vary` is REQ_VARY, set when a repeat of variable length comes before. */
  datatype Req = Unset | NoByte | Byte(c: byte, vary: bool)

  datatype Bytes = Bytes(first: Req, req: Req)

  const NOTHING := Bytes(Unset, Unset)

  // ---- What the compiler works out ----

  predicate VaryQuant(q: Quant) { q.Quant? && q.min != q.max }

  predicate VaryPiece(p: Piece) {
    match p
    case Char(_, q) => VaryQuant(q)
    case Place(_) => false
    case Group(_, alts, q) => VaryAlts(alts) || VaryQuant(q)
  }

  predicate VaryBranch(b: PBranch) {
    b.Then? && (VaryPiece(b.hd) || VaryBranch(b.tl))
  }

  predicate VaryAlts(a: PAlts) {
    VaryBranch(a.b) || (a.Or? && VaryAlts(a.rest))
  }

  /** What stands after an item that no longer lets a first byte be set. */
  function NoFirst(b: Bytes): Bytes {
    if b.first.Unset? then b.(first := NoByte) else b
  }

  function CharBytes(c: byte, q: Quant, b: Bytes, vary: bool): Bytes {
    if q.Quant? && q.min == 0 then NoFirst(b)
    else if b.first.Unset? && !(q.Quant? && q.min > 1) then b.(first := Byte(c, false))
    else if b.first.Unset? then Bytes(Byte(c, false), Byte(c, vary))
    else b.(req := Byte(c, vary))
  }

  /** `sub` is what the branches of the group need. */
  function GroupBytes(sub: Bytes, q: Quant, b: Bytes, vary: bool): Bytes {
    if q.Quant? && q.min == 0 then NoFirst(b)
    else if b.first.Unset? then
      var req := if sub.req.Byte? then sub.req else b.req;
      if !sub.first.Byte? then Bytes(NoByte, req)
      else if q.Quant? && q.min > 1 && !req.Byte? then Bytes(sub.first, sub.first)
      else Bytes(sub.first, req)
    else if sub.req.Byte? then b.(req := sub.req)
    else if sub.first.Byte? then b.(req := Byte(sub.first.c, vary))
    else b
  }

  /** What a branch needs once it goes on with `p`. */
  function PieceBytes(p: Piece, b: Bytes, vary: bool): Bytes
    decreases p
  {
    match p
    case Char(x, q) => if x.Chr? then CharBytes(x.c, q, b, vary) else NoFirst(b)
    case Place(op) => if op == OP_CIRCM then NoFirst(b) else b
    case Group(_, alts, q) => GroupBytes(AltsBytes(alts, vary), q, b, vary)
  }

  function BranchBytes(t: PBranch, b: Bytes, vary: bool): Bytes
    decreases t
  {
    match t
    case End => b
    case Then(hd, tl) => BranchBytes(tl, PieceBytes(hd, b, vary), vary || VaryPiece(hd))
  }

  /** The needs of the branches so far and of one more. */
  function Merge(x: Bytes, y: Bytes): Bytes {
    var x' := if x.first.Byte? && x.first != y.first then Bytes(NoByte, if x.req.Byte? then x.req else x.first) else x;
    var req := if !x'.first.Byte? && y.first.Byte? && !y.req.Byte? then y.first else y.req;
    Bytes(x'.first,
          if x'.req.Byte? && req.Byte? && x'.req.c == req.c then Byte(req.c, x'.req.vary || req.vary)
          else if x'.req == req then req
          else NoByte)
  }

  function FoldBytes(x: Bytes, a: PAlts, vary: bool): Bytes
    decreases a
  {
    var x' := Merge(x, BranchBytes(a.b, NOTHING, vary));
    if a.Or? then FoldBytes(x', a.rest, vary || VaryBranch(a.b)) else x'
  }

  function AltsBytes(a: PAlts, vary: bool): Bytes
    decreases a
  {
    var x := BranchBytes(a.b, NOTHING, vary);
    if a.Or? then FoldBytes(x, a.rest, vary || VaryBranch(a.b)) else x
  }

  // ---- It holds of every match ----

  /** Byte `c` is somewhere in s[i..j]. */
  predicate Occurs(c: int, s: seq<byte>, i: nat, j: nat) {
    exists t: nat :: i <= t < j <= |s| && s[t] == c
  }

  /** s[i..j] starts with the first byte and has the required byte, after the
      first one when both are set. */
  ghost predicate Has(b: Bytes, s: seq<byte>, i: nat, j: nat) {
    && i <= j <= |s|
    && (b.first.Byte? ==> i < j && s[i] == b.first.c)
    && (b.req.Byte? ==> Occurs(b.req.c, s, if b.first.Byte? then i + 1 else i, j))
  }

  /** As long as nothing is set, nothing has been consumed. */
  ghost predicate Idle(b: Bytes, i: nat, j: nat) {
    b.first.Unset? ==> i == j && !b.req.Byte?
  }

  lemma HasMore(b: Bytes, s: seq<byte>, i: nat, m: nat, j: nat)
    requires Has(b, s, i, m) && m <= j <= |s|
    ensures Has(b, s, i, j)
  {
    if b.req.Byte? {
      var at := if b.first.Byte? then i + 1 else i;
      var t: nat :| at <= t < m && s[t] == b.req.c;
    }
  }

  lemma CharHas(p: Piece, b: Bytes, vary: bool, s: seq<byte>, n: nat, i: nat, m: nat, j: nat)
    requires p.Char? && p.x.Chr? && Times(p.q, n) && OftenL(p, s, n, m, j) && Has(b, s, i, m) && Idle(b, i, m)
    ensures var b' := CharBytes(p.x.c, p.q, b, vary); Has(b', s, i, j) && Idle(b', i, j)
  {
    hide OftenL;
    OftenRange(p, s, n, m, j);
    HasMore(b, s, i, m, j);
    if n > 0 {
      var x := OftenSplit(p, s, n, m, j);
      OftenRange(p, s, n - 1, x, j);
      assert x == m + 1 && s[m] == p.x.c;
      if n > 1 {
        var y := OftenSplit(p, s, n - 1, x, j);
        OftenRange(p, s, n - 2, y, j);
        assert y == x + 1 && s[x] == p.x.c;
      }
    }
  }

  lemma GroupHas(p: Piece, sub: Bytes, b: Bytes, vary: bool, s: seq<byte>, n: nat, i: nat, m: nat, j: nat)
    requires p.Group? && Times(p.q, n) && OftenL(p, s, n, m, j) && Has(b, s, i, m) && Idle(b, i, m)
    requires forall u: nat, v: nat :: PAltsL(p.alts, s, u, v) ==> Has(sub, s, u, v)
    ensures var b' := GroupBytes(sub, p.q, b, vary); Has(b', s, i, j) && Idle(b', i, j)
  {
    hide OftenL, PAltsL, Has;
    OftenRange(p, s, n, m, j);
    HasMore(b, s, i, m, j);
    if n > 0 {
      var x := OftenSplit(p, s, n, m, j);
      OftenRange(p, s, n - 1, x, j);
      HasMore(sub, s, m, x, j);
      if n > 1 {
        var y := OftenSplit(p, s, n - 1, x, j);
        OftenRange(p, s, n - 2, y, j);
        HasMore(sub, s, x, y, j);
        GroupJoin(sub, p.q, b, vary, s, i, m, x, j, true);
      } else {
        GroupJoin(sub, p.q, b, vary, s, i, m, x, j, false);
      }
    } else {
      NoFirstHas(b, s, i, j);
    }
  }

  lemma NoFirstHas(b: Bytes, s: seq<byte>, i: nat, j: nat)
    requires Has(b, s, i, j)
    ensures Has(NoFirst(b), s, i, j) && Idle(NoFirst(b), i, j)
  {}

  /** One round from `m` to `x`, and if `again` another from `x` on. */
  lemma GroupJoin(sub: Bytes, q: Quant, b: Bytes, vary: bool, s: seq<byte>, i: nat, m: nat, x: nat, j: nat, again: bool)
    requires Has(b, s, i, m) && Idle(b, i, m) && Has(b, s, i, j) && Has(sub, s, m, x) && Has(sub, s, m, j)
    requires again ==> Has(sub, s, x, j)
    requires q.Quant? && q.min > 1 ==> again
    ensures var b' := GroupBytes(sub, q, b, vary); Has(b', s, i, j) && Idle(b', i, j)
  {
    if !(q.Quant? && q.min == 0) && sub.req.Byte? {
      var at := if sub.first.Byte? then m + 1 else m;
      var t: nat :| at <= t < j && s[t] == sub.req.c;
      assert b.first.Byte? ==> i + 1 <= t;
    }
  }

  lemma {:induction false} PieceHas(p: Piece, b: Bytes, vary: bool, s: seq<byte>, i: nat, m: nat, j: nat)
    requires WFPiece(p) && PieceL(p, s, m, j) && Has(b, s, i, m) && Idle(b, i, m)
    ensures var b' := PieceBytes(p, b, vary); Has(b', s, i, j) && Idle(b', i, j)
    decreases p, 1
  {
    hide OftenL, PAltsL, Has, CharBytes, GroupBytes;
    PieceRange(p, s, m, j);
    HasMore(b, s, i, m, j);
    NoFirstHas(b, s, i, j);
    if p.Char? {
      var n: nat :| Times(p.q, n) && OftenL(p, s, n, m, j);
      if p.x.Chr? { CharHas(p, b, vary, s, n, i, m, j); }
    } else if p.Group? {
      var n: nat :| Times(p.q, n) && OftenL(p, s, n, m, j);
      forall u: nat, v: nat | PAltsL(p.alts, s, u, v) ensures Has(AltsBytes(p.alts, vary), s, u, v) {
        AltsHave(p.alts, vary, s, u, v);
      }
      GroupHas(p, AltsBytes(p.alts, vary), b, vary, s, n, i, m, j);
    }
  }

  lemma {:induction false} BranchHas(t: PBranch, b: Bytes, vary: bool, s: seq<byte>, i: nat, m: nat, j: nat)
    requires WFPBranch(t) && PBranchL(t, s, m, j) && Has(b, s, i, m) && Idle(b, i, m)
    ensures var b' := BranchBytes(t, b, vary); Has(b', s, i, j) && Idle(b', i, j)
    decreases t, 0
  {
    hide PieceL, Has, PieceBytes;
    if t.Then? {
      var x := PUncons(t, s, m, j);
      PieceHas(t.hd, b, vary, s, i, m, x);
      BranchHas(t.tl, PieceBytes(t.hd, b, vary), vary || VaryPiece(t.hd), s, i, x, j);
    }
  }

  lemma MergeHas(x: Bytes, y: Bytes, s: seq<byte>, i: nat, j: nat)
    requires Has(x, s, i, j) || Has(y, s, i, j)
    ensures Has(Merge(x, y), s, i, j)
  {
    if Has(x, s, i, j) && x.req.Byte? {
      var at := if x.first.Byte? then i + 1 else i;
      var t: nat :| at <= t < j && s[t] == x.req.c;
    }
    if Has(y, s, i, j) && y.req.Byte? {
      var at := if y.first.Byte? then i + 1 else i;
      var t: nat :| at <= t < j && s[t] == y.req.c;
    }
  }

  lemma {:induction false} FoldHas(x: Bytes, a: PAlts, vary: bool, s: seq<byte>, i: nat, j: nat)
    requires WFPAlts(a) && (Has(x, s, i, j) || PAltsL(a, s, i, j))
    ensures Has(FoldBytes(x, a, vary), s, i, j)
    decreases a, 0
  {
    hide PBranchL, Has, Merge, BranchBytes;
    var y := BranchBytes(a.b, NOTHING, vary);
    if PBranchL(a.b, s, i, j) {
      PBranchRange(a.b, s, i, j);
      NothingHas(s, i);
      BranchHas(a.b, NOTHING, vary, s, i, i, j);
    }
    if Has(x, s, i, j) || Has(y, s, i, j) {
      MergeHas(x, y, s, i, j);
    }
    if a.Or? { FoldHas(Merge(x, y), a.rest, vary || VaryBranch(a.b), s, i, j); }
  }

  lemma NothingHas(s: seq<byte>, i: nat)
    requires i <= |s|
    ensures Has(NOTHING, s, i, i) && Idle(NOTHING, i, i)
  {}

  /** Every match starts with the first byte and has the required byte, after
      the first one when both are set. */
  lemma {:induction false} AltsHave(a: PAlts, vary: bool, s: seq<byte>, i: nat, j: nat)
    requires WFPAlts(a) && PAltsL(a, s, i, j)
    ensures Has(AltsBytes(a, vary), s, i, j)
    decreases a, 1
  {
    hide PBranchL, Has, BranchBytes;
    if PBranchL(a.b, s, i, j) {
      PBranchRange(a.b, s, i, j);
      NothingHas(s, i);
      BranchHas(a.b, NOTHING, vary, s, i, i, j);
    }
    if a.Or? { FoldHas(BranchBytes(a.b, NOTHING, vary), a.rest, vary || VaryBranch(a.b), s, i, j); }
  }
}
