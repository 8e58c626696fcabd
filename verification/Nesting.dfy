/** Patterns in which no unlimited group that may match nothing contains another:
    for these the code has no marked group inside a marked one. */
module Nesting {
  import opened Tree
  import opened Pattern
  import opened Translate
  import opened Flat

  /** Every item may match nothing. */
  predicate PieceNull(p: Piece)
    decreases p
  {
    match p
    case Char(_, q) => q.Quant? && q.min == 0
    case Place(_) => true
    case Group(_, alts, q) => (q.Quant? && q.min == 0) || AltsNull(alts)
  }

  predicate PBranchNull(b: PBranch)
    decreases b
  {
    b.Then? ==> PieceNull(b.hd) && PBranchNull(b.tl)
  }

  predicate AltsNull(a: PAlts)
    decreases a
  {
    PBranchNull(a.b) || (a.Or? && AltsNull(a.rest))
  }

  /** An unlimited group that may match nothing. */
  predicate NullLoop(p: Piece) {
    p.Group? && p.q.Quant? && p.q.max == -1 && AltsNull(p.alts)
  }

  predicate PlainPiece(p: Piece)
    decreases p
  {
    p.Group? ==> !NullLoop(p) && PlainPAlts(p.alts)
  }

  predicate PlainPBranch(b: PBranch)
    decreases b
  {
    b.Then? ==> PlainPiece(b.hd) && PlainPBranch(b.tl)
  }

  predicate PlainPAlts(a: PAlts)
    decreases a
  {
    PlainPBranch(a.b) && (a.Or? ==> PlainPAlts(a.rest))
  }

  predicate ApartPiece(p: Piece)
    decreases p
  {
    p.Group? ==> if NullLoop(p) then PlainPAlts(p.alts) else ApartPAlts(p.alts)
  }

  predicate ApartPBranch(b: PBranch)
    decreases b
  {
    b.Then? ==> ApartPiece(b.hd) && ApartPBranch(b.tl)
  }

  /** No unlimited group that may match nothing inside another. */
  predicate ApartPAlts(a: PAlts)
    decreases a
  {
    ApartPBranch(a.b) && (a.Or? ==> ApartPAlts(a.rest))
  }

  // ---- What may match nothing ----

  lemma {:induction false} NullAppend(a: Branch, b: Branch)
    ensures NullBranch(Append(a, b)) <==> NullBranch(a) && NullBranch(b)
    decreases a
  {
    if a.Cons? { NullAppend(a.tl, b); }
  }

  lemma {:induction false} NullCopies(g: Item, k: nat, rest: Branch)
    requires g.Bra? && g.ket.Once?
    ensures NullBranch(Copies(g, k, rest)) <==> (k > 0 ==> NullAlts(g.alts)) && NullBranch(rest)
    decreases k
  {
    if k > 0 { NullCopies(g, k - 1, rest); }
  }

  lemma NullRepeated(g: Item, min: nat, max: int, lazy: bool, possessive: bool)
    requires g.Bra? && g.ket.Once? && (max == -1 || (0 < max && min <= max))
    ensures NullBranch(Repeated(g, min, max, lazy, possessive)) <==> min == 0 || NullAlts(g.alts)
  {
    if min > 0 {
      var rest := if max == -1 then Cons(Looping(g, lazy, possessive), Nil) else Nested(g, max - min, lazy);
      NullCopies(g, if max == -1 then min - 1 else min, rest);
    }
  }

  lemma NullGroup(g: Item, q: Quant)
    requires g.Bra? && g.ket.Once? && WFQuant(q)
    ensures NullBranch(CodeGroup(g, q)) <==> (q.Quant? && q.min == 0) || NullAlts(g.alts)
  {
    hide Repeated;
    if q.Quant? {
      NullRepeated(g, q.min, q.max, q.lazy, q.possessive);
      NullRepeated(g, q.min, q.max, false, false);
      NullWrapped(Repeated(g, q.min, q.max, false, false));
    }
  }

  lemma NullWrapped(b: Branch)
    ensures NullBranch(Wrapped(b)) == NullBranch(b)
  {
    assert NullItem(Wrapped(b).hd) == NullAlts(Last(b)) == NullBranch(b);
  }

  lemma NullChar(p: Piece, next: PBranch, n: nat)
    requires WFPiece(p) && p.Char?
    ensures NullBranch(CodePiece(p, next, n)) <==> PieceNull(p)
  {
    hide Possessify;
    PossessifyMax(p.x, p.q, next);
    var b := CodePiece(p, next, n);
    if b.hd.Bra? {
      assert b == Wrapped(b.hd.alts.b);
      NullWrapped(b.hd.alts.b);
    }
  }

  lemma {:induction false} NullPiece(p: Piece, next: PBranch, n: nat)
    requires WFPiece(p)
    ensures NullBranch(CodePiece(p, next, n)) <==> PieceNull(p)
    decreases p, 1
  {
    hide AltsNull, NullAlts, CodeAlts, Possessify;
    if p.Char? { PossessifyMax(p.x, p.q, next); NullChar(p, next, n); }
    if p.Group? {
      hide CodeGroup;
      var m := if p.capturing then n + 1 else n;
      NullSame(p.alts, m);
      NullGroup(Bra(if p.capturing then n + 1 else 0, CodeAlts(p.alts, m), Once), p.q);
    }
  }

  lemma {:induction false} NullPBranch(b: PBranch, n: nat)
    requires WFPBranch(b)
    ensures NullBranch(CodeBranch(b, n)) <==> PBranchNull(b)
    decreases b, 0
  {
    hide PieceNull, CodePiece;
    if b.Then? {
      NullPiece(b.hd, b.tl, n);
      NullPBranch(b.tl, n + Captures(b.hd));
      NullAppend(CodePiece(b.hd, b.tl, n), CodeBranch(b.tl, n + Captures(b.hd)));
    }
  }

  /** The scan of the code calls a group possibly empty exactly when every item
      of one of its alternatives may match nothing. */
  lemma {:induction false} NullSame(a: PAlts, n: nat)
    requires WFPAlts(a)
    ensures NullAlts(CodeAlts(a, n)) <==> AltsNull(a)
    decreases a, 0
  {
    hide NullBranch, PBranchNull, CodeBranch;
    NullPBranch(a.b, n);
    if a.Or? { NullSame(a.rest, n + BranchCaptures(a.b)); }
  }

  // ---- Marked groups come from such groups ----

  lemma {:induction false} PlainAppend(a: Branch, b: Branch)
    requires PlainBranch(a) && PlainBranch(b)
    ensures PlainBranch(Append(a, b))
    decreases a
  {
    hide PlainItem;
    if a.Cons? { PlainAppend(a.tl, b); }
  }

  lemma {:induction false} ApartAppend(a: Branch, b: Branch)
    requires ApartBranch(a) && ApartBranch(b)
    ensures ApartBranch(Append(a, b))
    decreases a
  {
    hide ApartItem;
    if a.Cons? { ApartAppend(a.tl, b); }
  }

  lemma {:induction false} PlainApartItem(it: Item)
    requires PlainItem(it)
    ensures ApartItem(it)
    decreases it
  {
    match it
    case Bra(_, alts, _) => PlainApart(alts);
    case BraZero(_, bra) => PlainApartItem(bra);
    case _ =>
  }

  lemma {:induction false} PlainApartBranch(b: Branch)
    requires PlainBranch(b)
    ensures ApartBranch(b)
    decreases b
  {
    if b.Cons? { PlainApartItem(b.hd); PlainApartBranch(b.tl); }
  }

  lemma {:induction false} PlainApart(a: Alts)
    requires PlainAlts(a)
    ensures ApartAlts(a)
    decreases a
  {
    PlainApartBranch(a.b);
    if a.More? { PlainApart(a.rest); }
  }

  lemma {:induction false} PlainCopies(g: Item, k: nat, rest: Branch)
    requires PlainItem(g) && PlainBranch(rest)
    ensures PlainBranch(Copies(g, k, rest))
    decreases k
  {
    if k > 0 { PlainCopies(g, k - 1, rest); }
  }

  lemma {:induction false} PlainNested(g: Item, k: nat, lazy: bool)
    requires PlainItem(g)
    ensures PlainBranch(Nested(g, k, lazy))
    decreases k
  {
    if k > 1 {
      PlainNested(g, k - 1, lazy);
      var body := Cons(g, Nested(g, k - 1, lazy));
      assert PlainAlts(Last(body));
      assert PlainItem(Bra(0, Last(body), Once));
    }
  }

  lemma {:induction false} ApartCopies(g: Item, k: nat, rest: Branch)
    requires ApartItem(g) && ApartBranch(rest)
    ensures ApartBranch(Copies(g, k, rest))
    decreases k
  {
    if k > 0 { ApartCopies(g, k - 1, rest); }
  }

  lemma {:induction false} ApartNested(g: Item, k: nat, lazy: bool)
    requires ApartItem(g)
    ensures ApartBranch(Nested(g, k, lazy))
    decreases k
  {
    if k > 1 {
      ApartNested(g, k - 1, lazy);
      var body := Cons(g, Nested(g, k - 1, lazy));
      assert ApartAlts(Last(body));
      assert ApartItem(Bra(0, Last(body), Once));
    }
  }

  lemma PlainGroup(g: Item, q: Quant)
    requires g.Bra? && g.ket.Once? && WFQuant(q) && !Keeps(q) && PlainAlts(g.alts) && (q.Quant? && q.max == -1 ==> !NullAlts(g.alts))
    ensures PlainBranch(CodeGroup(g, q))
  {
    assert PlainItem(g);
    if q.Quant? {
      var loop := Looping(g, q.lazy, q.possessive);
      assert q.max == -1 ==> PlainItem(loop) && PlainBranch(Cons(loop, Nil)) && PlainBranch(Cons(BraZero(q.lazy, loop), Nil));
      if q.max == -1 {
        if q.min > 0 { PlainCopies(g, q.min - 1, Cons(loop, Nil)); }
      } else {
        PlainNested(g, q.max - q.min, q.lazy);
        PlainCopies(g, q.min, Nested(g, q.max - q.min, q.lazy));
      }
    }
  }

  lemma ApartGroup(g: Item, q: Quant)
    requires g.Bra? && g.ket.Once? && WFQuant(q) && !Keeps(q) && ApartAlts(g.alts)
    requires q.Quant? && q.max == -1 && NullAlts(g.alts) ==> PlainAlts(g.alts)
    ensures ApartBranch(CodeGroup(g, q))
  {
    assert ApartItem(g);
    if q.Quant? {
      var loop := Looping(g, q.lazy, q.possessive);
      assert q.max == -1 ==> ApartItem(loop) && ApartBranch(Cons(loop, Nil)) && ApartBranch(Cons(BraZero(q.lazy, loop), Nil));
      if q.max == -1 {
        if q.min > 0 { ApartCopies(g, q.min - 1, Cons(loop, Nil)); }
      } else {
        ApartNested(g, q.max - q.min, q.lazy);
        ApartCopies(g, q.min, Nested(g, q.max - q.min, q.lazy));
      }
    }
  }

  lemma NoBrackets(p: Piece, next: PBranch, n: nat)
    requires WFPiece(p) && CoveredPiece(p) && !p.Group?
    ensures var b := CodePiece(p, next, n);
            b.Cons? && !b.hd.Bra? && !b.hd.BraZero? && (b.tl.Cons? ==> !b.tl.hd.Bra? && !b.tl.hd.BraZero? && b.tl.tl.Nil?)
  {
    hide Possessify;
    if p.Char? { PossessifyMax(p.x, p.q, next); }
  }

  lemma NoGroups(b: Branch)
    requires b.Cons? && !b.hd.Bra? && !b.hd.BraZero?
    requires b.tl.Cons? ==> !b.tl.hd.Bra? && !b.tl.hd.BraZero? && b.tl.tl.Nil?
    ensures PlainBranch(b) && ApartBranch(b)
  {
    if b.tl.Cons? { assert PlainBranch(b.tl) && ApartBranch(b.tl); }
  }

  lemma {:induction false} PlainPieceCode(p: Piece, next: PBranch, n: nat)
    requires WFPiece(p) && CoveredPiece(p) && PlainPiece(p)
    ensures PlainBranch(CodePiece(p, next, n))
    decreases p, 1
  {
    if p.Group? {
      hide CodeGroup, AltsNull, NullAlts, PlainAlts, CodeAlts;
      var m := if p.capturing then n + 1 else n;
      NullSame(p.alts, m);
      PlainCode(p.alts, m);
      PlainGroup(Bra(if p.capturing then n + 1 else 0, CodeAlts(p.alts, m), Once), p.q);
    } else {
      NoBrackets(p, next, n);
      NoGroups(CodePiece(p, next, n));
    }
  }

  lemma {:induction false} PlainBranchCode(b: PBranch, n: nat)
    requires WFPBranch(b) && CoveredBranch(b) && PlainPBranch(b)
    ensures PlainBranch(CodeBranch(b, n))
    decreases b, 0
  {
    hide CodePiece, PlainPiece;
    if b.Then? {
      PlainPieceCode(b.hd, b.tl, n);
      PlainBranchCode(b.tl, n + Captures(b.hd));
      PlainAppend(CodePiece(b.hd, b.tl, n), CodeBranch(b.tl, n + Captures(b.hd)));
    }
  }

  lemma {:induction false} PlainCode(a: PAlts, n: nat)
    requires WFPAlts(a) && CoveredAlts(a) && PlainPAlts(a)
    ensures PlainAlts(CodeAlts(a, n))
    decreases a, 0
  {
    hide CodeBranch, PlainPBranch, PlainBranch;
    PlainBranchCode(a.b, n);
    if a.Or? { PlainCode(a.rest, n + BranchCaptures(a.b)); }
  }

  lemma {:induction false} ApartPieceCode(p: Piece, next: PBranch, n: nat)
    requires WFPiece(p) && CoveredPiece(p) && ApartPiece(p)
    ensures ApartBranch(CodePiece(p, next, n))
    decreases p, 1
  {
    if p.Group? {
      hide CodeGroup, AltsNull, NullAlts, ApartAlts, PlainAlts, CodeAlts;
      var m := if p.capturing then n + 1 else n;
      NullSame(p.alts, m);
      if NullLoop(p) {
        PlainCode(p.alts, m);
        PlainApart(CodeAlts(p.alts, m));
      } else {
        ApartCode(p.alts, m);
      }
      ApartGroup(Bra(if p.capturing then n + 1 else 0, CodeAlts(p.alts, m), Once), p.q);
    } else {
      NoBrackets(p, next, n);
      NoGroups(CodePiece(p, next, n));
    }
  }

  lemma {:induction false} ApartBranchCode(b: PBranch, n: nat)
    requires WFPBranch(b) && CoveredBranch(b) && ApartPBranch(b)
    ensures ApartBranch(CodeBranch(b, n))
    decreases b, 0
  {
    hide CodePiece, ApartPiece;
    if b.Then? {
      ApartPieceCode(b.hd, b.tl, n);
      ApartBranchCode(b.tl, n + Captures(b.hd));
      ApartAppend(CodePiece(b.hd, b.tl, n), CodeBranch(b.tl, n + Captures(b.hd)));
    }
  }

  /** Such a pattern is compiled to code without nested marked groups. */
  lemma {:induction false} ApartCode(a: PAlts, n: nat)
    requires WFPAlts(a) && CoveredAlts(a) && ApartPAlts(a)
    ensures ApartAlts(CodeAlts(a, n))
    decreases a, 0
  {
    hide CodeBranch, ApartPBranch, ApartBranch;
    ApartBranchCode(a.b, n);
    if a.Or? { ApartCode(a.rest, n + BranchCaptures(a.b)); }
  }
}
