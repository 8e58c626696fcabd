/** Compiled code does not depend on where it lies: links are relative, so a
    copy of the cells is a copy of the code. */
module Layout {
  import opened Opcodes
  import opened Tree
  import opened Translate

  /** The `n` cells at `p` of `c` are the cells `d` further on in `c'`. */
  predicate Copied(c: seq<int>, p: nat, n: nat, c': seq<int>, d: int) {
    p + n <= |c| && 0 <= p + d && p + d + n <= |c'| &&
    forall y {:trigger c[y]} :: p <= y < p + n ==> c'[y + d] == c[y]
  }

  lemma CopiedPart(c: seq<int>, p: nat, n: nat, c': seq<int>, d: int, q: nat, m: nat)
    requires Copied(c, p, n, c', d) && p <= q && q + m <= p + n
    ensures Copied(c, q, m, c', d)
  {}

  lemma SingleMoved(c: seq<int>, p: nat, x: Single, c': seq<int>, d: int)
    requires SingleAt(c, p, x) && Copied(c, p, SingleSize(x), c', d)
    ensures SingleAt(c', p + d, x)
  {
    if x.Set? {
      var a, b := c'[p + d + 1..p + d + 33], c[p + 1..p + 33];
      forall k | 0 <= k < 32 ensures a[k] == b[k] {
        assert c'[p + 1 + k + d] == c[p + 1 + k];
      }
    }
  }

  lemma RepMoved(c: seq<int>, p: nat, x: Single, k: Kind, lazy: bool, c': seq<int>, d: int)
    requires RepAt(c, p, x, k, lazy) && Copied(c, p, RepSize(x, k), c', d)
    ensures RepAt(c', p + d, x, k, lazy)
  {
    if x.Set? {
      CopiedPart(c, p, RepSize(x, k), c', d, p, 33);
      SingleMoved(c, p, x, c', d);
    }
  }

  lemma {:induction false} ItemMoved(c: seq<int>, p: nat, it: Item, c': seq<int>, d: int)
    requires ItemAt(c, p, it) && Copied(c, p, ItemSize(it), c', d)
    ensures ItemAt(c', p + d, it)
    decreases it
  {
    hide AltsAt, AltsSize, SingleAt, RepAt;
    match it
    case One(x) => SingleMoved(c, p, x, c', d);
    case Rep(x, k, lazy) => RepMoved(c, p, x, k, lazy, c', d);
    case Bra(cap, alts, _) =>
      CopiedPart(c, p, ItemSize(it), c', d, p, AltsSize(HeadSize(cap), alts));
      AltsMoved(c, p, HeadSize(cap), alts, c', d);
    case BraZero(_, bra) =>
      CopiedPart(c, p, ItemSize(it), c', d, p + 1, ItemSize(bra));
      ItemMoved(c, p + 1, bra, c', d);
    case Zero(_) =>
  }

  lemma {:induction false} BranchMoved(c: seq<int>, p: nat, b: Branch, c': seq<int>, d: int)
    requires BranchAt(c, p, b) && Copied(c, p, BranchSize(b), c', d)
    ensures BranchAt(c', p + d, b)
    decreases b
  {
    hide ItemAt, ItemSize;
    if b.Cons? {
      CopiedPart(c, p, BranchSize(b), c', d, p, ItemSize(b.hd));
      CopiedPart(c, p, BranchSize(b), c', d, p + ItemSize(b.hd), BranchSize(b.tl));
      ItemMoved(c, p, b.hd, c', d);
      BranchMoved(c, p + ItemSize(b.hd), b.tl, c', d);
    }
  }

  /** Moving a group keeps its meaning. */
  lemma {:induction false} AltsMoved(c: seq<int>, p: nat, h: nat, a: Alts, c': seq<int>, d: int)
    requires AltsAt(c, p, h, a) && Copied(c, p, AltsSize(h, a), c', d)
    ensures AltsAt(c', p + d, h, a)
    decreases a
  {
    hide BranchAt, BranchSize;
    CopiedPart(c, p, AltsSize(h, a), c', d, p + h, BranchSize(a.b));
    BranchMoved(c, p + h, a.b, c', d);
    if a.More? {
      var q := p + h + BranchSize(a.b);
      CopiedPart(c, p, AltsSize(h, a), c', d, q, AltsSize(1 + LINK_SIZE, a.rest));
      AltsMoved(c, q, 1 + LINK_SIZE, a.rest, c', d);
    }
  }

  // ---- One branch after another ----

  lemma {:induction false} AppendAt(c: seq<int>, p: nat, a: Branch, b: Branch)
    ensures BranchSize(Append(a, b)) == BranchSize(a) + BranchSize(b)
    ensures BranchAt(c, p, Append(a, b)) <==> BranchAt(c, p, a) && BranchAt(c, p + BranchSize(a), b)
    decreases a
  {
    hide ItemAt, ItemSize;
    if a.Cons? { AppendAt(c, p + ItemSize(a.hd), a.tl, b); }
  }

  lemma {:induction false} AppendAssoc(a: Branch, b: Branch, c: Branch)
    ensures Append(Append(a, b), c) == Append(a, Append(b, c))
    ensures Append(a, Nil) == a
    decreases a
  {
    if a.Cons? { AppendAssoc(a.tl, b, c); }
  }

  lemma {:induction false} CopiesAppend(g: Item, n: nat, rest: Branch)
    ensures Copies(g, n, rest) == Append(Copies(g, n, Nil), rest)
    ensures Copies(g, n + 1, Nil) == Append(Copies(g, n, Nil), Cons(g, Nil))
    decreases n
  {
    if n > 0 { CopiesAppend(g, n - 1, rest); }
  }

  lemma OneAt(c: seq<int>, p: nat, it: Item)
    ensures BranchAt(c, p, Cons(it, Nil)) <==> ItemAt(c, p, it)
    ensures BranchSize(Cons(it, Nil)) == ItemSize(it)
  {
    hide ItemAt, ItemSize;
    if ItemAt(c, p, it) {
      ItemFits(c, p, it);
      assert BranchAt(c, p + ItemSize(it), Nil);
    }
  }

  /** A closed bracket around one branch. */
  lemma BracketThere(c: seq<int>, p: nat, b: Branch, ket: Ket)
    requires p + 3 <= |c| && c[p] == BraOp(0, ket) && BranchAt(c, p + 3, b) && p + BranchSize(b) + 6 <= |c|
    requires Get(c, p + 1) == 3 + BranchSize(b) == Get(c, p + 3 + BranchSize(b) + 1) && c[p + 3 + BranchSize(b)] == KetOp(ket)
    ensures ItemAt(c, p, Bra(0, Last(b), ket)) && ItemSize(Bra(0, Last(b), ket)) == BranchSize(b) + 6
  {
    hide BranchAt, BranchSize;
    assert AltsAt(c, p, 3, Last(b));
  }

  lemma ItemFits(c: seq<int>, p: nat, it: Item)
    requires ItemAt(c, p, it)
    ensures p + ItemSize(it) <= |c|
  {}

  lemma BranchFits(c: seq<int>, p: nat, b: Branch)
    requires BranchAt(c, p, b)
    ensures p + BranchSize(b) <= |c|
  {}

  // ---- What lies before the point of writing ----

  /** The cells before `p` are as they were. */
  predicate Kept(was: seq<int>, now: seq<int>, p: nat) {
    |was| == |now| && Copied(was, 0, p, now, 0)
  }

  lemma BranchKept(was: seq<int>, now: seq<int>, p: nat, q: nat, b: Branch)
    requires Kept(was, now, p) && BranchAt(was, q, b) && q + BranchSize(b) <= p
    ensures BranchAt(now, q, b)
  {
    hide BranchAt, BranchSize, Copied;
    CopiedPart(was, 0, p, now, 0, q, BranchSize(b));
    BranchMoved(was, q, b, now, 0);
  }

  lemma ItemKept(was: seq<int>, now: seq<int>, p: nat, q: nat, it: Item)
    requires Kept(was, now, p) && ItemAt(was, q, it) && q + ItemSize(it) <= p
    ensures ItemAt(now, q, it)
  {
    hide ItemAt, ItemSize, Copied;
    CopiedPart(was, 0, p, now, 0, q, ItemSize(it));
    ItemMoved(was, q, it, now, 0);
  }
}
