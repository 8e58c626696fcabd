/** The capturing groups of a pattern, by number, and what they are compiled to. */
module PatternGroups {
  import opened Tree
  import opened Spans
  import opened Pattern
  import opened Translate

  datatype MaybeAlts = NoGroup | Is(alts: PAlts)

  /** The alternatives of capturing group `g`; `n` groups come before. */
  function PieceGroup(p: Piece, n: nat, g: nat): MaybeAlts
    decreases p
  {
    match p
    case Group(capturing, alts, _) =>
      if capturing && g == n + 1 then Is(alts) else AltsGroup(alts, if capturing then n + 1 else n, g)
    case _ => NoGroup
  }

  function BranchGroup(b: PBranch, n: nat, g: nat): MaybeAlts
    decreases b
  {
    match b
    case End => NoGroup
    case Then(hd, tl) => if g <= n + Captures(hd) then PieceGroup(hd, n, g) else BranchGroup(tl, n + Captures(hd), g)
  }

  function AltsGroup(a: PAlts, n: nat, g: nat): MaybeAlts
    decreases a
  {
    if g <= n + BranchCaptures(a.b) then BranchGroup(a.b, n, g)
    else if a.Or? then AltsGroup(a.rest, n + BranchCaptures(a.b), g)
    else NoGroup
  }

  // ---- Replicated groups are copies ----

  lemma {:induction false} AppendGroups(a: Branch, b: Branch)
    ensures BranchGroups(Append(a, b)) == BranchGroups(a) + BranchGroups(b)
    decreases a
  {
    hide ItemGroups;
    if a.Cons? { AppendGroups(a.tl, b); }
  }

  lemma {:induction false} CopiesGroups(g: Item, n: nat, rest: Branch)
    requires BranchGroups(rest) <= ItemGroups(g)
    ensures BranchGroups(Copies(g, n, rest)) <= ItemGroups(g)
    decreases n
  {
    hide ItemGroups;
    if n > 0 { CopiesGroups(g, n - 1, rest); }
  }

  lemma {:induction false} NestedGroups(g: Item, k: nat, lazy: bool)
    ensures BranchGroups(Nested(g, k, lazy)) <= ItemGroups(g)
    decreases k
  {
    if k > 1 {
      NestedGroups(g, k - 1, lazy);
      var body := Cons(g, Nested(g, k - 1, lazy));
      var bracket := Bra(0, Last(body), Once);
      assert ItemGroups(bracket) == AltsGroups(Last(body)) == BranchGroups(body);
      assert ItemGroups(BraZero(lazy, bracket)) == ItemGroups(bracket);
    } else if k == 1 {
      assert ItemGroups(BraZero(lazy, g)) == ItemGroups(g);
    }
  }

  lemma RepeatedGroups(g: Item, min: nat, max: int, lazy: bool, possessive: bool)
    requires g.Bra? && (max == -1 || (0 < max && min <= max))
    ensures BranchGroups(Repeated(g, min, max, lazy, possessive)) <= ItemGroups(g)
  {
    var l := Looping(g, lazy, possessive);
    assert ItemGroups(l) == ItemGroups(g) && ItemGroups(BraZero(lazy, l)) == ItemGroups(g);
    hide ItemGroups;
    if max == -1 {
      if min > 0 { CopiesGroups(g, min - 1, Cons(l, Nil)); }
    } else {
      NestedGroups(g, max - min, lazy);
      CopiesGroups(g, min, Nested(g, max - min, lazy));
    }
  }

  lemma WrappedGroups(b: Branch)
    ensures BranchGroups(Wrapped(b)) == BranchGroups(b)
  {
    assert ItemGroups(Wrapped(b).hd) == AltsGroups(Last(b));
  }

  lemma GroupGroups(g: Item, q: Quant)
    requires g.Bra? && WFQuant(q)
    ensures BranchGroups(CodeGroup(g, q)) <= ItemGroups(g)
  {
    hide ItemGroups, Repeated;
    if q.Quant? {
      RepeatedGroups(g, q.min, q.max, q.lazy, q.possessive);
      RepeatedGroups(g, q.min, q.max, false, false);
      WrappedGroups(Repeated(g, q.min, q.max, false, false));
    }
  }

  // ---- Numbers in the code and in the pattern ----

  /** The group with number `g.0` has been compiled to `g.1`. */
  ghost predicate Compiled(m: MaybeAlts, lo: nat, hi: nat, g: (nat, Alts)) {
    lo < g.0 <= hi && m.Is? && WFPAlts(m.alts) && g.1 == CodeAlts(m.alts, g.0)
  }

  lemma {:induction false} PieceNumbers(p: Piece, next: PBranch, n: nat, g: (nat, Alts))
    requires WFPiece(p) && g in BranchGroups(CodePiece(p, next, n))
    ensures Compiled(PieceGroup(p, n, g.0), n, n + Captures(p), g)
    decreases p, 1
  {
    hide CodeAlts, CodeGroup, CodeSingle, CodeClass, AltsGroups, AutoPossess.AutoPossessive;
    match p
    case Group(capturing, alts, q) =>
      var n' := if capturing then n + 1 else n;
      var it := Bra(if capturing then n + 1 else 0, CodeAlts(alts, n'), Once);
      GroupGroups(it, q);
      assert g in ItemGroups(it);
      if g in AltsGroups(CodeAlts(alts, n')) { AltsNumbers(alts, n', g); }
    case Char(x, q) => NoGroups(p, next, n);
    case Place(_) =>
  }

  lemma NoGroups(p: Piece, next: PBranch, n: nat)
    requires WFPiece(p) && p.Char?
    ensures BranchGroups(CodePiece(p, next, n)) == {}
  {
    hide Possessify;
    PossessifyMax(p.x, p.q, next);
    var b := CodePiece(p, next, n);
    var inner := if b.hd.Bra? then b.hd.alts.b else b;
    assert inner.tl.Cons? ==> BranchGroups(inner.tl) == ItemGroups(inner.tl.hd) + {};
    assert BranchGroups(inner) == {};
    if b.hd.Bra? { assert b == Wrapped(inner); WrappedGroups(inner); }
  }

  lemma {:induction false} BranchNumbers(b: PBranch, n: nat, g: (nat, Alts))
    requires WFPBranch(b) && g in BranchGroups(CodeBranch(b, n))
    ensures Compiled(BranchGroup(b, n, g.0), n, n + BranchCaptures(b), g)
    decreases b, 0
  {
    hide CodePiece, PieceGroup, CodeAlts;
    if b.Then? {
      var piece, rest := CodePiece(b.hd, b.tl, n), CodeBranch(b.tl, n + Captures(b.hd));
      AppendGroups(piece, rest);
      if g in BranchGroups(piece) {
        PieceNumbers(b.hd, b.tl, n, g);
      } else {
        BranchNumbers(b.tl, n + Captures(b.hd), g);
      }
    }
  }

  lemma AltsGroupsStep(a: PAlts, n: nat, g: (nat, Alts))
    requires WFPAlts(a)
    ensures WFPBranch(a.b) && (a.Or? ==> WFPAlts(a.rest))
    ensures g in AltsGroups(CodeAlts(a, n)) <==>
            g in BranchGroups(CodeBranch(a.b, n)) || (a.Or? && g in AltsGroups(CodeAlts(a.rest, n + BranchCaptures(a.b))))
    ensures Compiled(BranchGroup(a.b, n, g.0), n, n + BranchCaptures(a.b), g) ==>
              Compiled(AltsGroup(a, n, g.0), n, n + AltsCaptures(a), g)
    ensures a.Or? ==>
              var n' := n + BranchCaptures(a.b);
              Compiled(AltsGroup(a.rest, n', g.0), n', n' + AltsCaptures(a.rest), g) ==>
              Compiled(AltsGroup(a, n, g.0), n, n + AltsCaptures(a), g)
  {
    hide CodeBranch, BranchGroup, BranchGroups, WFPBranch, WFPAlts, BranchCaptures;
    assert WFPBranch(a.b) && (a.Or? ==> WFPAlts(a.rest)) by { WFParts(a); }
  }

  lemma WFParts(a: PAlts)
    requires WFPAlts(a)
    ensures WFPBranch(a.b) && (a.Or? ==> WFPAlts(a.rest))
  {}

  /** Every capturing group in the code, with all its copies, is a group of the
      pattern: the one that has its number. */
  lemma {:induction false} AltsNumbers(a: PAlts, n: nat, g: (nat, Alts))
    requires WFPAlts(a) && g in AltsGroups(CodeAlts(a, n))
    ensures Compiled(AltsGroup(a, n, g.0), n, n + AltsCaptures(a), g)
    decreases a, 0
  {
    hide CodeBranch, BranchGroup, BranchGroups, WFPBranch, WFPAlts, Compiled, AltsGroups, CodeAlts, AltsGroup, AltsCaptures, BranchCaptures;
    AltsGroupsStep(a, n, g);
    if g in BranchGroups(CodeBranch(a.b, n)) {
      BranchNumbers(a.b, n, g);
    } else {
      AltsNumbers(a.rest, n + BranchCaptures(a.b), g);
    }
  }

  /** No group contains itself. */
  lemma GroupsNested(a: PAlts, n: nat)
    requires WFPAlts(a)
    ensures NoSelf(AltsGroups(CodeAlts(a, n)))
  {
    hide AltsGroups, CodeAlts;
    forall g, h | g in AltsGroups(CodeAlts(a, n)) && h in AltsGroups(g.1) ensures h.0 != g.0 {
      AltsNumbers(a, n, g);
      AltsNumbers(AltsGroup(a, n, g.0).alts, g.0, h);
    }
  }
}
