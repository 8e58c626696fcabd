/** Unfolding the language of a tree one step at a time. */
module Language {
  import opened Opcodes
  import opened Tree

  lemma ItemRange(it: Item, s: seq<byte>, i: nat, j: nat)
    ensures ItemL(it, s, i, j) ==> i <= j <= |s|
  {}

  lemma BranchRange(b: Branch, s: seq<byte>, i: nat, j: nat)
    ensures BranchL(b, s, i, j) ==> i <= j <= |s|
  {}

  lemma {:induction false} AltsRange(a: Alts, s: seq<byte>, i: nat, j: nat)
    ensures AltsL(a, s, i, j) ==> i <= j <= |s|
    decreases a
  {
    hide BranchL;
    BranchRange(a.b, s, i, j);
    if a.More? { AltsRange(a.rest, s, i, j); }
  }

  lemma {:induction false} IterRange(a: Alts, s: seq<byte>, n: nat, i: nat, j: nat)
    requires Iter(a, s, n, i, j)
    ensures i <= j <= |s|
    decreases n
  {
    hide AltsL;
    if n > 0 {
      var m := IterSplit(a, s, n, i, j);
      IterRange(a, s, n - 1, m, j);
    }
  }

  lemma Uncons(b: Branch, s: seq<byte>, i: nat, j: nat) returns (m: nat)
    requires b.Cons? && BranchL(b, s, i, j)
    ensures i <= m <= j && ItemL(b.hd, s, i, m) && BranchL(b.tl, s, m, j)
  {
    hide ItemL;
    m :| i <= m <= j && ItemL(b.hd, s, i, m) && BranchL(b.tl, s, m, j);
  }

  lemma ConsL(b: Branch, s: seq<byte>, i: nat, m: nat, j: nat)
    requires b.Cons? && ItemL(b.hd, s, i, m) && BranchL(b.tl, s, m, j)
    ensures BranchL(b, s, i, j)
  {
    hide ItemL;
    ItemRange(b.hd, s, i, m);
    BranchRange(b.tl, s, m, j);
  }

  lemma NilL(s: seq<byte>, i: nat, j: nat)
    ensures BranchL(Nil, s, i, j) <==> i == j <= |s|
  {}

  lemma AltsSplit(a: Alts, s: seq<byte>, i: nat, j: nat)
    ensures AltsL(a, s, i, j) <==> BranchL(a.b, s, i, j) || (a.More? && AltsL(a.rest, s, i, j))
  {
    hide BranchL;
  }

  lemma IterSplit(a: Alts, s: seq<byte>, n: nat, i: nat, j: nat) returns (m: nat)
    requires n > 0 && Iter(a, s, n, i, j)
    ensures i <= m <= j && AltsL(a, s, i, m) && Iter(a, s, n - 1, m, j) && (n == 1 ==> m == j)
  {
    hide AltsL;
    m :| i <= m <= j && AltsL(a, s, i, m) && Iter(a, s, n - 1, m, j);
  }

  lemma IterMore(a: Alts, s: seq<byte>, n: nat, i: nat, m: nat, j: nat)
    requires AltsL(a, s, i, m) && Iter(a, s, n, m, j)
    ensures Iter(a, s, n + 1, i, j)
  {
    hide AltsL;
    AltsRange(a, s, i, m);
    IterRange(a, s, n, m, j);
  }

  lemma IterNone(a: Alts, s: seq<byte>, i: nat, j: nat)
    ensures Iter(a, s, 0, i, j) <==> i == j <= |s|
  {}

  /** A plain bracket matches by one round, an unlimited one by one or more. */
  lemma BraL(it: Item, s: seq<byte>, i: nat, j: nat)
    requires it.Bra?
    ensures ItemL(it, s, i, j) <==>
            if it.ket.Again? then exists n: nat :: n > 0 && Iter(it.alts, s, n, i, j) else AltsL(it.alts, s, i, j)
  {
    hide AltsL, Iter;
    AltsRange(it.alts, s, i, j);
    if it.ket.Again? && exists n: nat :: n > 0 && Iter(it.alts, s, n, i, j) {
      var n: nat :| n > 0 && Iter(it.alts, s, n, i, j);
      IterRange(it.alts, s, n, i, j);
    }
  }

  lemma BraZeroL(it: Item, s: seq<byte>, i: nat, j: nat)
    requires it.BraZero?
    ensures ItemL(it, s, i, j) <==> i == j <= |s| || ItemL(it.bra, s, i, j)
  {
    ItemRange(it.bra, s, i, j);
  }

  /** What the matchers cover is a part of what the compiler emits. */
  lemma {:induction false} WFShaped(it: Item)
    requires WFItem(it)
    ensures ShapedItem(it)
    decreases it
  {
    match it
    case Bra(_, alts, _) => WFShapedAlts(alts);
    case BraZero(_, bra) => WFShaped(bra);
    case _ =>
  }

  lemma {:induction false} WFShapedBranch(b: Branch)
    requires WFBranch(b)
    ensures ShapedBranch(b)
    decreases b
  {
    if b.Cons? { WFShaped(b.hd); WFShapedBranch(b.tl); }
  }

  lemma {:induction false} WFShapedAlts(a: Alts)
    requires WFAlts(a)
    ensures ShapedAlts(a)
    decreases a
  {
    WFShapedBranch(a.b);
    if a.More? { WFShapedAlts(a.rest); }
  }

  /** An item that is `lo` to `hi` repeats of `x`; `hi` < 0 means no limit. */
  predicate Repeats(it: Item, x: Single, lo: nat, hi: int) {
    (it == One(x) && lo == 1 == hi) || (it.Rep? && it.x == x && lo == Min(it.kind) && hi == Max(it.kind))
  }

  lemma RepeatsL(it: Item, x: Single, lo: nat, hi: int, s: seq<byte>, i: nat, j: nat)
    requires Repeats(it, x, lo, hi)
    ensures ItemL(it, s, i, j) <==>
            Run(x, s, i, j) && lo <= j - i && (hi < 0 || j - i <= hi) && (IsPossessive(it) ==> Full(x, hi, s, i, j))
    ensures NullItem(it) <==> lo == 0
    ensures WFItem(it) ==> hi < 0 || lo <= hi
  {}
}
