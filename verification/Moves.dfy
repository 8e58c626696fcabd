/** How the ends reachable from a call relate to those of the calls it makes. */
module Moves {
  import opened Opcodes
  import opened Tree
  import opened Language
  import opened Kont

  // ---- Rounds of a group ----

  /** Rounds that consume nothing can be dropped. */
  lemma {:induction false} IterRounds(a: Alts, s: seq<byte>, n: nat, i: nat, j: nat)
    requires Iter(a, s, n, i, j)
    ensures i <= j <= |s| && Rounds(a, s, i, j)
    decreases n
  {
    if n > 0 {
      var m: nat :| i <= m <= j && AltsL(a, s, i, m) && Iter(a, s, n - 1, m, j);
      IterRounds(a, s, n - 1, m, j);
    }
  }

  lemma {:induction false} RoundsIter(a: Alts, s: seq<byte>, i: nat, j: nat) returns (n: nat)
    requires Rounds(a, s, i, j)
    ensures Iter(a, s, n, i, j) && (i < j ==> n > 0)
    decreases j - i
  {
    n := 0;
    if i != j {
      var m: nat :| i < m <= j && AltsL(a, s, i, m) && Rounds(a, s, m, j);
      var n' := RoundsIter(a, s, m, j);
      n := n' + 1;
      assert Iter(a, s, n - 1, m, j);
    }
  }

  /** One or more rounds start with a round that consumes something, unless
      they consume nothing at all. */
  lemma {:induction false} FirstRound(a: Alts, s: seq<byte>, n: nat, i: nat, j: nat) returns (m: nat)
    requires n > 0 && Iter(a, s, n, i, j)
    ensures AltsL(a, s, i, m) && m <= |s|
    ensures (i < m <= j && Rounds(a, s, m, j)) || i == m == j
    decreases n
  {
    m :| i <= m <= j && AltsL(a, s, i, m) && Iter(a, s, n - 1, m, j);
    AltsRange(a, s, i, m);
    if m == i {
      if n - 1 > 0 {
        m := FirstRound(a, s, n - 1, i, j);
      }
    } else {
      IterRounds(a, s, n - 1, m, j);
    }
  }

  // ---- Ends that may be reported ----

  lemma ConsS(hd: Item, tl: Branch, k: Kont, s: seq<byte>, i: nat, m: nat, j: nat)
    requires ItemL(hd, s, i, m) && ReachS(tl, k, s, m, j)
    ensures ReachS(Cons(hd, tl), k, s, i, j)
  {
    var e: nat :| BranchL(tl, s, m, e) && KontS(k, s, e, j);
    assert BranchL(Cons(hd, tl), s, i, e);
  }

  lemma SuffixL(p: nat, h: nat, a: Alts, p': nat, h': nat, a': Alts, s: seq<byte>, i: nat, j: nat)
    requires IsSuffix(p, h, a, p', h', a') && AltsL(a', s, i, j)
    ensures AltsL(a, s, i, j)
    decreases a
  {
    if !(p' == p && h' == h && a' == a) {
      SuffixL(p + h + BranchSize(a.b), 1 + LINK_SIZE, a.rest, p', h', a', s, i, j);
    }
  }

  lemma EnterS(bra: Item, rest: Branch, k: Kont, gp: nat, first: bool, p: nat, h: nat, a: Alts,
               s: seq<byte>, i: nat, j: nat)
    requires bra.Bra? && IsSuffix(gp, HeadSize(bra.cap), bra.alts, p, h, a)
    requires ReachS(a.b, In(bra, gp, i, first, rest, k), s, i, j)
    ensures ReachS(Cons(bra, rest), k, s, i, j)
  {
    var k' := In(bra, gp, i, first, rest, k);
    var e: nat :| BranchL(a.b, s, i, e) && KontS(k', s, e, j);
    var m: nat :| LoopS(bra, s, e, m) && ReachS(rest, k, s, m, j);
    SuffixL(gp, HeadSize(bra.cap), bra.alts, p, h, a, s, i, e);
    if IsLoop(bra) {
      var n: nat :| Iter(bra.alts, s, n, e, m);
      IterRange(bra.alts, s, n, e, m);
      assert Iter(bra.alts, s, n + 1, i, m);
    }
    ConsS(bra, rest, k, s, i, m, j);
  }

  lemma LeaveS(k: Kont, s: seq<byte>, i: nat, j: nat)
    requires k.In? && i <= |s| && ReachS(k.rest, k.k, s, i, j)
    ensures ReachS(Nil, k, s, i, j)
  {
    if IsLoop(k.bra) { assert Iter(k.bra.alts, s, 0, i, i); }
    assert LoopS(k.bra, s, i, i);
    assert KontS(k, s, i, j);
    assert BranchL(Nil, s, i, i);
  }

  lemma AgainS(k: Kont, s: seq<byte>, i: nat, j: nat)
    requires k.In? && IsLoop(k.bra) && ReachS(Cons(k.bra, k.rest), k.k, s, i, j)
    ensures ReachS(Nil, k, s, i, j)
  {
    var e: nat :| BranchL(Cons(k.bra, k.rest), s, i, e) && KontS(k.k, s, e, j);
    var m := Uncons(Cons(k.bra, k.rest), s, i, e);
    assert ItemL(k.bra, s, i, m);
    var n: nat :| n > 0 && Iter(k.bra.alts, s, n, i, m);
    assert LoopS(k.bra, s, i, m);
    assert ReachS(k.rest, k.k, s, m, j);
    assert KontS(k, s, i, j);
    assert BranchL(Nil, s, i, i);
  }

  lemma KetS(k: Kont, s: seq<byte>, i: nat, j: nat)
    requires k.In? && k.bra.Bra? && i <= |s|
    requires ReachS(k.rest, k.k, s, i, j) || (IsLoop(k.bra) && ReachS(Cons(k.bra, k.rest), k.k, s, i, j))
    ensures ReachS(Nil, k, s, i, j)
  {
    if ReachS(k.rest, k.k, s, i, j) {
      LeaveS(k, s, i, j);
    } else {
      AgainS(k, s, i, j);
    }
  }

  // ---- Ends that must be found ----

  lemma ConsC(hd: Item, tl: Branch, k: Kont, s: seq<byte>, i: nat, j: nat) returns (m: nat)
    requires ReachC(Cons(hd, tl), k, s, i, j)
    ensures ItemL(hd, s, i, m) && ReachC(tl, k, s, m, j)
  {
    var e: nat :| BranchL(Cons(hd, tl), s, i, e) && KontC(k, s, e, j);
    m := Uncons(Cons(hd, tl), s, i, e);
  }

  /** Some branch of `a` leads on to `k`. */
  ghost predicate AltsC(a: Alts, k: Kont, s: seq<byte>, i: nat, j: nat) {
    exists m: nat :: AltsL(a, s, i, m) && KontC(k, s, m, j)
  }

  lemma EnterC(first: bool, bra: Item, rest: Branch, k: Kont, gp: nat, s: seq<byte>, i: nat, j: nat)
    requires bra.Bra? && MustReach(first, Cons(bra, rest), gp, k, s, i, j)
    ensures AltsC(bra.alts, In(bra, gp, i, first, rest, k), s, i, j)
  {
    if first {
      var k' := In(bra, gp, i, true, rest, k);
      var m2 := ConsC(bra, rest, k, s, i, j);
      var m := m2;
      if IsLoop(bra) {
        var n: nat :| n > 0 && Iter(bra.alts, s, n, i, m2);
        m := FirstRound(bra.alts, s, n, i, m2);
      }
      assert LoopC(k', s, m, m2);
      assert AltsL(bra.alts, s, i, m) && KontC(k', s, m, j);
    }
  }

  /** What must be found from a ket: by leaving, or by going round again. */
  lemma KetC(k: Kont, s: seq<byte>, i: nat, j: nat)
    requires k.In? && k.bra.Bra? && k.entry <= i && ReachC(Nil, k, s, i, j)
    ensures k.first || !IsLoop(k.bra) || k.entry < i
    ensures ReachC(k.rest, k.k, s, i, j) ||
            (IsLoop(k.bra) && k.entry < i && ReachC(Cons(k.bra, k.rest), k.k, s, i, j)
             && AgainC(k.bra, k.gp, k.rest, k.k, s, i, j))
  {
    var m: nat :| LoopC(k, s, i, m) && ReachC(k.rest, k.k, s, m, j);
    if m != i {
      var x: nat :| i < x <= m && AltsL(k.bra.alts, s, i, x) && Rounds(k.bra.alts, s, x, m);
      var k' := In(k.bra, k.gp, i, false, k.rest, k.k);
      assert LoopC(k', s, x, m);
      assert KontC(k', s, x, j);
      var n := RoundsIter(k.bra.alts, s, i, m);
      assert ItemL(k.bra, s, i, m) by { IterRange(k.bra.alts, s, n, i, m); }
      var e: nat :| BranchL(k.rest, s, m, e) && KontC(k.k, s, e, j);
      assert BranchL(Cons(k.bra, k.rest), s, i, e);
    }
  }

  // ---- No match that must be found ----

  /** No match that must be found starts at `i`. */
  ghost predicate Dead(tail: Branch, k: Kont, s: seq<byte>, i: nat) {
    forall j: nat :: !ReachC(tail, k, s, i, j)
  }

  /** As `Dead`, or for a bracket that its own ket re-enters. */
  ghost predicate Lost(first: bool, tail: Branch, pc: nat, k: Kont, s: seq<byte>, i: nat) {
    if first then Dead(tail, k, s, i)
    else tail.Cons? && forall j: nat :: !AgainC(tail.hd, pc, tail.tl, k, s, i, j)
  }

  ghost predicate AltsDead(a: Alts, k: Kont, s: seq<byte>, i: nat) {
    forall j: nat :: !AltsC(a, k, s, i, j)
  }

  lemma NoSuccessor(hd: Item, tl: Branch, k: Kont, s: seq<byte>, i: nat)
    requires forall m: nat :: ItemL(hd, s, i, m) ==> Dead(tl, k, s, m)
    ensures Dead(Cons(hd, tl), k, s, i)
  {
    forall j: nat | ReachC(Cons(hd, tl), k, s, i, j) ensures false {
      var m := ConsC(hd, tl, k, s, i, j);
    }
  }

  lemma SplitC(a: Alts, k: Kont, s: seq<byte>, i: nat, j: nat)
    requires AltsC(a, k, s, i, j)
    ensures ReachC(a.b, k, s, i, j) || (a.More? && AltsC(a.rest, k, s, i, j))
  {
    var m: nat :| AltsL(a, s, i, m) && KontC(k, s, m, j);
    assert BranchL(a.b, s, i, m) || (a.More? && AltsL(a.rest, s, i, m));
  }

  lemma NoBranch(a: Alts, k: Kont, s: seq<byte>, i: nat)
    requires Dead(a.b, k, s, i) && (a.More? ==> AltsDead(a.rest, k, s, i))
    ensures AltsDead(a, k, s, i)
  {
    forall j: nat | AltsC(a, k, s, i, j) ensures false {
      SplitC(a, k, s, i, j);
    }
  }

  lemma NoBranchYet(a: Alts, k: Kont, s: seq<byte>, i: nat)
    requires Dead(a.b, k, s, i)
    ensures a.Last? ==> AltsDead(a, k, s, i)
    ensures a.More? && AltsDead(a.rest, k, s, i) ==> AltsDead(a, k, s, i)
  {
    if a.Last? || AltsDead(a.rest, k, s, i) {
      NoBranch(a, k, s, i);
    }
  }

  lemma NoEntry(first: bool, tail: Branch, k: Kont, gp: nat, s: seq<byte>, i: nat)
    requires tail.Cons? && tail.hd.Bra?
    requires AltsDead(tail.hd.alts, In(tail.hd, gp, i, first, tail.tl, k), s, i)
    ensures Lost(first, tail, gp, k, s, i)
  {
    forall j: nat | MustReach(first, tail, gp, k, s, i, j) ensures false {
      EnterC(first, tail.hd, tail.tl, k, gp, s, i, j);
    }
    if first {
      assert forall j: nat :: ReachC(tail, k, s, i, j) ==> MustReach(first, tail, gp, k, s, i, j);
    } else {
      assert forall j: nat :: AgainC(tail.hd, gp, tail.tl, k, s, i, j) ==> MustReach(first, tail, gp, k, s, i, j);
    }
  }

  lemma BraZeroS(tail: Branch, k: Kont, s: seq<byte>, i: nat, j: nat)
    requires tail.Cons? && tail.hd.BraZero? && i <= |s|
    requires ReachS(tail.tl, k, s, i, j) || ReachS(Cons(tail.hd.bra, tail.tl), k, s, i, j)
    ensures ReachS(tail, k, s, i, j)
  {
    if ReachS(tail.tl, k, s, i, j) {
      ConsS(tail.hd, tail.tl, k, s, i, i, j);
    } else {
      var b := Cons(tail.hd.bra, tail.tl);
      var e: nat :| BranchL(b, s, i, e) && KontS(k, s, e, j);
      var m := Uncons(b, s, i, e);
      assert BranchL(tail, s, i, e) by { assert ItemL(tail.hd, s, i, m); }
    }
  }

  lemma BraZeroC(tail: Branch, k: Kont, s: seq<byte>, i: nat, j: nat)
    requires tail.Cons? && tail.hd.BraZero? && ReachC(tail, k, s, i, j)
    ensures ReachC(tail.tl, k, s, i, j) || ReachC(Cons(tail.hd.bra, tail.tl), k, s, i, j)
  {
    var e: nat :| BranchL(tail, s, i, e) && KontC(k, s, e, j);
    var m := Uncons(tail, s, i, e);
    if m != i {
      assert BranchL(Cons(tail.hd.bra, tail.tl), s, i, e);
    }
  }

  lemma NoZeroOrMore(tail: Branch, k: Kont, s: seq<byte>, i: nat)
    requires tail.Cons? && tail.hd.BraZero?
    requires Dead(tail.tl, k, s, i) && Dead(Cons(tail.hd.bra, tail.tl), k, s, i)
    ensures Dead(tail, k, s, i)
  {
    forall j: nat | ReachC(tail, k, s, i, j) ensures false {
      BraZeroC(tail, k, s, i, j);
    }
  }

  lemma NoWayOut(k: Kont, s: seq<byte>, i: nat)
    requires k.In? && k.bra.Bra? && k.entry <= i
    requires k.first || !IsLoop(k.bra) || k.entry < i ==> Dead(k.rest, k.k, s, i)
    requires IsLoop(k.bra) && k.entry < i ==> Lost(!IsMarked(k.bra), Cons(k.bra, k.rest), k.gp, k.k, s, i)
    ensures Dead(Nil, k, s, i)
  {
    forall j: nat | ReachC(Nil, k, s, i, j) ensures false {
      KetC(k, s, i, j);
    }
  }
}
