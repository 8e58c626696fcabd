/** Which lookbehind branches have a fixed length, said of the pattern as written,
    and that find_fixedlength() finds that length in the code. */
module Widths {
  import opened Opcodes
  import opened Tree
  import opened Pattern
  import opened Translate
  import opened Scan

  /** The number of bytes of an item whose quantifier, if it has one, allows just
      one number of repeats; -1 for any other item. The branches of a group must
      all have the same number. */
  function PieceWidth(p: Piece): int
    decreases p
  {
    match p
    case Char(_, q) => Often(q, 1)
    case Place(_) => 0
    case Group(_, alts, q) => Often(q, AltsWidth(alts))
  }

  function BranchWidth(b: PBranch): int
    decreases b
  {
    match b
    case End => 0
    case Then(hd, tl) =>
      if PieceWidth(hd) < 0 || BranchWidth(tl) < 0 then -1 else PieceWidth(hd) + BranchWidth(tl)
  }

  function AltsWidth(a: PAlts): int
    decreases a
  {
    match a
    case Only(b) => BranchWidth(b)
    case Or(b, rest) => if BranchWidth(b) == AltsWidth(rest) then BranchWidth(b) else -1
  }

  function Often(q: Quant, w: int): int {
    if w < 0 || (q.Quant? && q.min != q.max) then -1 else if q.None? then w else q.min * w
  }

  // ---- The code shows it ----

  lemma {:induction false} AppendWidth(a: Branch, b: Branch)
    ensures FixedBranch(Append(a, b)) == if FixedBranch(a) < 0 || FixedBranch(b) < 0 then -1 else FixedBranch(a) + FixedBranch(b)
    decreases a
  {
    hide FixedItem;
    FixedBranchLow(a);
    FixedBranchLow(b);
    if a.Cons? {
      FixedBranchLow(a.tl);
      AppendWidth(a.tl, b);
    }
  }

  lemma OneWidth(it: Item)
    ensures FixedBranch(Cons(it, Nil)) == FixedItem(it)
  {
    hide FixedItem;
    FixedLow(it);
    assert FixedBranch(Nil) == 0;
  }

  /** Atomic brackets change nothing. */
  lemma WrappedWidth(b: Branch)
    ensures FixedBranch(Wrapped(b)) == FixedBranch(b)
  {
    hide FixedBranch;
    OneWidth(Bra(0, Last(b), Atomic));
    assert FixedAlts(Last(b)) == FixedBranch(b);
  }

  lemma PairWidth(a: Item, b: Item)
    requires FixedItem(b) == -1
    ensures FixedBranch(Cons(a, Cons(b, Nil))) == -1
  {
    hide FixedItem;
    OneWidth(b);
  }

  lemma SingleWidth(x: Single, min: nat, max: int, lazy: bool, possessive: bool)
    requires max == -1 || (0 < max && min <= max)
    ensures FixedBranch(CodeSingle(x, min, max, lazy, possessive)) == if min == max then min else -1
  {
    hide FixedBranch;
    var b := CodeSingle(x, min, max, lazy, possessive);
    var pair := if b.hd.Bra? then b.hd.alts.b else b;
    if b.hd.Bra? { WrappedWidth(pair); }
    if pair.tl.Nil? { OneWidth(pair.hd); } else { PairWidth(pair.hd, pair.tl.hd); }
  }

  lemma ClassWidth(x: Single, min: nat, max: int, lazy: bool)
    requires max == -1 || (0 < max && min <= max)
    ensures FixedBranch(CodeClass(x, min, max, lazy)) == if min == max then min else -1
  {
    OneWidth(CodeClass(x, min, max, lazy).hd);
  }

  lemma CharWidth(p: Piece, next: PBranch, n: nat)
    requires p.Char? && WFPiece(p)
    ensures FixedBranch(CodePiece(p, next, n)) == PieceWidth(p)
  {
    hide FixedBranch, AutoPossess.AutoPossessive;
    if p.q.None? {
      OneWidth(One(p.x));
    } else if p.x.Set? {
      ClassWidth(p.x, p.q.min, p.q.max, p.q.lazy);
      ClassWidth(p.x, p.q.min, p.q.max, false);
      WrappedWidth(CodeClass(p.x, p.q.min, p.q.max, false));
    } else {
      SingleWidth(p.x, p.q.min, p.q.max, p.q.lazy, p.q.possessive || Possessify(p.x, p.q, next));
    }
  }

  lemma {:induction false} CopiesWidth(g: Item, n: nat, rest: Branch)
    ensures FixedBranch(Copies(g, n, rest)) ==
            if n == 0 then FixedBranch(rest)
            else if FixedItem(g) < 0 || FixedBranch(rest) < 0 then -1
            else n * FixedItem(g) + FixedBranch(rest)
    decreases n
  {
    hide FixedItem;
    FixedLow(g);
    FixedBranchLow(rest);
    if n > 0 {
      CopiesWidth(g, n - 1, rest);
      assert n * FixedItem(g) == (n - 1) * FixedItem(g) + FixedItem(g);
    }
  }

  lemma NestedWidth(g: Item, k: nat, lazy: bool)
    ensures FixedBranch(Nested(g, k, lazy)) == if k == 0 then 0 else -1
  {
    if k > 0 { OneWidth(Nested(g, k, lazy).hd); }
  }

  lemma RepeatedWidth(g: Item, min: nat, max: int, lazy: bool, possessive: bool)
    requires g.Bra? && g.ket.Once? && (max == -1 || (0 < max && min <= max))
    ensures FixedBranch(Repeated(g, min, max, lazy, possessive)) ==
            if min != max || FixedAlts(g.alts) < 0 then -1 else min * FixedAlts(g.alts)
  {
    hide FixedBranch, FixedAlts, Looping, NullAlts;
    FixedLow(g);
    if max == -1 {
      var l := Looping(g, lazy, possessive);
      assert FixedItem(l) == -1 by { LoopingWidth(g, lazy, possessive); }
      OneWidth(l);
      OneWidth(BraZero(lazy, l));
      if min > 0 { CopiesWidth(g, min - 1, Cons(l, Nil)); }
    } else {
      NestedWidth(g, max - min, lazy);
      CopiesWidth(g, min, Nested(g, max - min, lazy));
    }
  }

  lemma LoopingWidth(g: Item, lazy: bool, possessive: bool)
    requires g.Bra?
    ensures FixedItem(Looping(g, lazy, possessive)) == -1
  {}

  lemma GroupWidth(g: Item, q: Quant)
    requires g.Bra? && g.ket.Once? && WFQuant(q)
    ensures FixedBranch(CodeGroup(g, q)) == Often(q, FixedAlts(g.alts))
  {
    hide FixedBranch, FixedAlts, Repeated;
    FixedAltsLow(g.alts);
    if q.None? {
      OneWidth(g);
    } else {
      RepeatedWidth(g, q.min, q.max, q.lazy, q.possessive);
      if q.possessive && q.max != -1 {
        RepeatedWidth(g, q.min, q.max, false, false);
        WrappedWidth(Repeated(g, q.min, q.max, false, false));
      }
    }
  }

  lemma {:induction false} PieceShows(p: Piece, next: PBranch, n: nat)
    requires WFPiece(p)
    ensures FixedBranch(CodePiece(p, next, n)) == PieceWidth(p)
    decreases p, 1
  {
    hide FixedBranch, CodeGroup, CodeAlts, Often;
    match p
    case Char(_, _) => CharWidth(p, next, n);
    case Place(op) => OneWidth(Zero(op));
    case Group(capturing, alts, q) =>
      var m := if capturing then n + 1 else n;
      AltsShow(alts, m);
      GroupWidth(Bra(if capturing then n + 1 else 0, CodeAlts(alts, m), Once), q);
  }

  /** The code of a branch has a fixed length if and only if the branch as
      written has, and it is the same. */
  lemma {:induction false} BranchShows(b: PBranch, n: nat)
    requires WFPBranch(b)
    ensures FixedBranch(CodeBranch(b, n)) == BranchWidth(b)
    decreases b, 0
  {
    hide PieceWidth, CodePiece, FixedItem;
    if b.Then? {
      PieceShows(b.hd, b.tl, n);
      BranchShows(b.tl, n + Captures(b.hd));
      AppendWidth(CodePiece(b.hd, b.tl, n), CodeBranch(b.tl, n + Captures(b.hd)));
    }
  }

  lemma {:induction false} AltsShow(a: PAlts, n: nat)
    requires WFPAlts(a)
    ensures FixedAlts(CodeAlts(a, n)) == AltsWidth(a)
    decreases a, 0
  {
    hide FixedBranch, BranchWidth, CodeBranch;
    BranchShows(a.b, n);
    if a.Or? { AltsShow(a.rest, n + BranchCaptures(a.b)); }
  }

  // ---- And the scan finds it ----

  /** A lookbehind branch is accepted, with the right length, if it has one. */
  method LookbehindLength(code: seq<int>, last_branch: nat, ghost b: PBranch, ghost n: nat) returns (length: int)
    requires WFPBranch(b) && last_branch + 3 < |code| && code[last_branch + 3] == OP_REVERSE
    requires BranchAt(code, last_branch + 6, CodeBranch(b, n)) && last_branch + 6 + BranchSize(CodeBranch(b, n)) < |code|
    requires code[last_branch + 6 + BranchSize(CodeBranch(b, n))] == OP_END
    ensures length == BranchWidth(b)
  {
    hide BranchAt, BranchSize, ShapedBranch, CodeBranch, BranchWidth, FixedBranch;
    BranchShaped(b, n);
    BranchShows(b, n);
    length := FixedLookbehind(code, last_branch, CodeBranch(b, n));
  }
}
