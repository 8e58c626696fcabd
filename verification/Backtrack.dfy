/** What match() tries, as lists: like those of `Order`, but with the chain of
    group starts that match() keeps and goes by when it decides whether a round
    of a group was empty. */
module Backtrack {
  import opened Opcodes
  import opened Tree
  import opened Kont
  import opened Order
  import Language

  datatype At = At(p: Pos, c: Chain)

  function WithChain(c: Chain): Pos -> seq<At> { (p: Pos) => [At(p, c)] }

  /** Outside a group that was entered at `entry`, its start off the chain. */
  function Out(bra: Item, entry: nat, e: At): At {
    At(if bra.Bra? then Close(bra.cap, entry, e.p) else e.p, if IsMarked(bra) && e.c.Link? then e.c.prev else e.c)
  }

  /** Where its own ket enters a group again: a marked one is put on the chain
      by the ket, and once more by the bracket. */
  function Reenter(bra: Item, out: At): At {
    if IsMarked(bra) then out.(c := Link(out.p.i, out.c)) else out
  }

  /** Whether the ket may go round again: not after a round that left the
      position where the chain says that it started. */
  predicate GoesOn(bra: Item, entry: nat, e: At, n: nat) {
    IsLoop(bra) && entry < e.p.i <= n && !(IsMarked(bra) && e.c.Link? && e.c.saved == e.p.i)
  }

  function ItemM(it: Item, s: seq<byte>, st: At): seq<At>
    decreases it, |s| - st.p.i
  {
    match it
    case Bra(cap, alts, ket) =>
      Bind(AltsM(alts, s, At(st.p, Entered(it, st.c, st.p.i))), (e: At) =>
        var out := Out(it, st.p.i, e);
        if GoesOn(it, st.p.i, e, |s|) then Either(ket.lazy, ItemM(it, s, Reenter(it, out)), [out]) else [out])
    case BraZero(lazy, bra) => Either(lazy, ItemM(bra, s, st), [st])
    case _ => Bind(ItemO(it, s, st.p), WithChain(st.c))
  }

  function BranchM(b: Branch, s: seq<byte>, st: At): seq<At>
    decreases b, 0
  {
    match b
    case Nil => [st]
    case Cons(hd, tl) => Bind(ItemM(hd, s, st), (e: At) => BranchM(tl, s, e))
  }

  function AltsM(a: Alts, s: seq<byte>, st: At): seq<At>
    decreases a, 0
  {
    match a
    case Last(b) => BranchM(b, s, st)
    case More(b, rest) => BranchM(b, s, st) + AltsM(rest, s, st)
  }

  /** From the end of a branch of the innermost open group. */
  function KontM(k: Kont, s: seq<byte>, st: At): seq<At>
    decreases k, 0
  {
    match k
    case Stop => [st]
    case In(bra, _, entry, _, rest, k') =>
      var out := Out(bra, entry, st);
      if GoesOn(bra, entry, st, |s|)
      then Either(bra.ket.lazy, Tries(Cons(bra, rest), k', s, Reenter(bra, out)), Tries(rest, k', s, out))
      else Tries(rest, k', s, out)
  }

  /** All that `tail` and then the open groups lead to, in the order in which
      match() tries it. */
  function Tries(tail: Branch, k: Kont, s: seq<byte>, st: At): seq<At>
    decreases k, 1
  {
    Bind(BranchM(tail, s, st), (e: At) => KontM(k, s, e))
  }

  // ---- Unfolding ----

  function FollowM(b: Branch, s: seq<byte>): At -> seq<At> { (e: At) => BranchM(b, s, e) }

  function Closing(k: Kont, s: seq<byte>): At -> seq<At> { (e: At) => KontM(k, s, e) }

  function Onward(tail: Branch, k: Kont, s: seq<byte>): At -> seq<At> { (e: At) => Tries(tail, k, s, e) }

  function AfterM(bra: Item, entry: nat, s: seq<byte>): At -> seq<At>
    requires bra.Bra?
  {
    (e: At) =>
      var out := Out(bra, entry, e);
      if GoesOn(bra, entry, e, |s|) then Either(bra.ket.lazy, ItemM(bra, s, Reenter(bra, out)), [out]) else [out]
  }

  lemma TriesBind(tail: Branch, k: Kont, s: seq<byte>, st: At)
    ensures Tries(tail, k, s, st) == Bind(BranchM(tail, s, st), Closing(k, s))
  {
    hide BranchM, KontM;
    BindSame(BranchM(tail, s, st), (e: At) => KontM(k, s, e), Closing(k, s));
  }

  lemma BranchMCons(hd: Item, tl: Branch, s: seq<byte>, st: At)
    ensures BranchM(Cons(hd, tl), s, st) == Bind(ItemM(hd, s, st), FollowM(tl, s))
  {
    hide ItemM;
    BindSame(ItemM(hd, s, st), (e: At) => BranchM(tl, s, e), FollowM(tl, s));
  }

  lemma BraM(bra: Item, s: seq<byte>, st: At)
    requires bra.Bra?
    ensures ItemM(bra, s, st) == Bind(AltsM(bra.alts, s, At(st.p, Entered(bra, st.c, st.p.i))), AfterM(bra, st.p.i, s))
  {
    hide AltsM, Out, Reenter;
    BindSame(AltsM(bra.alts, s, At(st.p, Entered(bra, st.c, st.p.i))), (e: At) =>
      var out := Out(bra, st.p.i, e);
      if GoesOn(bra, st.p.i, e, |s|) then Either(bra.ket.lazy, ItemM(bra, s, Reenter(bra, out)), [out]) else [out],
      AfterM(bra, st.p.i, s));
  }

  // ---- How the lists of one call are made of those of the calls it makes ----

  /** At the end of a branch. */
  lemma TriesNil(k: Kont, s: seq<byte>, st: At)
    ensures Tries(Nil, k, s, st) == KontM(k, s, st)
  {
    hide KontM;
    TriesBind(Nil, k, s, st);
    BindOne(st, Closing(k, s));
  }

  lemma TriesCons(hd: Item, tl: Branch, k: Kont, s: seq<byte>, st: At)
    ensures Tries(Cons(hd, tl), k, s, st) == Bind(ItemM(hd, s, st), Onward(tl, k, s))
  {
    hide ItemM, BranchM, KontM, Tries;
    TriesBind(Cons(hd, tl), k, s, st);
    BranchMCons(hd, tl, s, st);
    forall e: At ensures Onward(tl, k, s)(e) == Bind(FollowM(tl, s)(e), Closing(k, s)) { TriesBind(tl, k, s, e); }
    BindBind(ItemM(hd, s, st), FollowM(tl, s), Closing(k, s), Onward(tl, k, s));
  }

  function Resume(tl: Branch, k: Kont, s: seq<byte>, c: Chain): Pos -> seq<At> { (p: Pos) => Tries(tl, k, s, At(p, c)) }

  /** Items other than groups leave the chain alone. */
  lemma TriesSingle(it: Item, tl: Branch, k: Kont, s: seq<byte>, st: At)
    requires !it.Bra? && !it.BraZero?
    ensures Tries(Cons(it, tl), k, s, st) == Bind(ItemO(it, s, st.p), Resume(tl, k, s, st.c))
  {
    hide ItemO, Tries;
    TriesCons(it, tl, k, s, st);
    forall p: Pos ensures Resume(tl, k, s, st.c)(p) == Bind(WithChain(st.c)(p), Onward(tl, k, s)) { BindOne(At(p, st.c), Onward(tl, k, s)); }
    BindBind(ItemO(it, s, st.p), WithChain(st.c), Onward(tl, k, s), Resume(tl, k, s, st.c));
  }

  lemma TriesBraZero(it: Item, tl: Branch, k: Kont, s: seq<byte>, st: At)
    requires it.BraZero?
    ensures Tries(Cons(it, tl), k, s, st) == Either(it.lazy, Tries(Cons(it.bra, tl), k, s, st), Tries(tl, k, s, st))
  {
    hide Tries;
    TriesCons(it, tl, k, s, st);
    TriesCons(it.bra, tl, k, s, st);
    BindEither(it.lazy, ItemM(it.bra, s, st), [st], Onward(tl, k, s));
    BindOne(st, Onward(tl, k, s));
  }

  /** What the branches `a` of a group that was just entered lead to. */
  function AltsTries(a: Alts, k: Kont, s: seq<byte>, st: At): seq<At> {
    Bind(AltsM(a, s, st), Closing(k, s))
  }

  lemma TriesEnter(tail: Branch, k: Kont, gp: nat, first: bool, s: seq<byte>, st: At)
    requires tail.Cons? && tail.hd.Bra?
    ensures Tries(tail, k, s, st)
            == AltsTries(tail.hd.alts, In(tail.hd, gp, st.p.i, first, tail.tl, k), s, At(st.p, Entered(tail.hd, st.c, st.p.i)))
  {
    hide ItemM, AltsM, Tries, Out, Reenter;
    var bra, rest := tail.hd, tail.tl;
    var k' := In(bra, gp, st.p.i, first, rest, k);
    TriesCons(bra, rest, k, s, st);
    BraM(bra, s, st);
    forall e: At ensures Closing(k', s)(e) == Bind(AfterM(bra, st.p.i, s)(e), Onward(rest, k, s)) {
      var out := Out(bra, st.p.i, e);
      BindOne(out, Onward(rest, k, s));
      if GoesOn(bra, st.p.i, e, |s|) {
        BindEither(bra.ket.lazy, ItemM(bra, s, Reenter(bra, out)), [out], Onward(rest, k, s));
        TriesCons(bra, rest, k, s, Reenter(bra, out));
      }
    }
    BindBind(AltsM(bra.alts, s, At(st.p, Entered(bra, st.c, st.p.i))), AfterM(bra, st.p.i, s), Onward(rest, k, s), Closing(k', s));
  }

  /** The branches one after another. */
  lemma AltsTriesSplit(a: Alts, k: Kont, s: seq<byte>, st: At)
    ensures AltsTries(a, k, s, st) == Tries(a.b, k, s, st) + if a.More? then AltsTries(a.rest, k, s, st) else []
  {
    hide BranchM, KontM, Tries;
    TriesBind(a.b, k, s, st);
    if a.More? { BindAppend(BranchM(a.b, s, st), AltsM(a.rest, s, st), Closing(k, s)); }
  }

  lemma TriesZero(it: Item, tl: Branch, k: Kont, s: seq<byte>, st: At)
    requires it.Zero? && st.p.i <= |s|
    ensures Tries(Cons(it, tl), k, s, st) == if ZeroHolds(it.op, s, st.p.i) then Tries(tl, k, s, st) else []
  {
    hide Tries, ZeroHolds;
    TriesSingle(it, tl, k, s, st);
    BindOne(st.p, Resume(tl, k, s, st.c));
  }

  /** A repeat of one byte. */
  lemma TriesRep(it: Item, tl: Branch, k: Kont, s: seq<byte>, st: At, x: Single, lo: nat, hi: int, lazy: bool)
    requires Language.Repeats(it, x, lo, hi) && !IsPossessive(it) && (it.Rep? && lo != hi ==> lazy == it.lazy)
    ensures Tries(Cons(it, tl), k, s, st) == Bind(RepO(x, lo, hi, lazy, s, st.p), Resume(tl, k, s, st.c))
  {
    hide Tries, RepO;
    TriesSingle(it, tl, k, s, st);
    if lo == hi { ExactEither(x, lo, lazy, it.Rep? && it.lazy, s, st.p); }
  }

  /** A possessive repeat: only as many as there are. */
  lemma TriesPos(it: Item, tl: Branch, k: Kont, s: seq<byte>, st: At)
    requires IsPossessive(it)
    ensures Tries(Cons(it, tl), k, s, st) == Bind(PosO(it.x, Min(it.kind), Max(it.kind), s, st.p), Resume(tl, k, s, st.c))
  {
    hide Tries, PosO;
    TriesSingle(it, tl, k, s, st);
  }

  /** At the ket: out of the group, or first or last the group again. */
  lemma TriesKet(k: Kont, s: seq<byte>, i: nat, caps: Caps, c: Chain)
    requires k.In? && k.bra.Bra? && k.entry <= i <= |s| && (IsMarked(k.bra) ==> c.Link?)
    requires IsLoop(k.bra) && k.entry == i ==> IsMarked(k.bra) && c.saved == i
    ensures var out := Out(k.bra, k.entry, At(Pos(i, caps), c));
            && out.p.i == i && out.c == (if IsMarked(k.bra) then c.prev else c)
            && out.p.caps == (if k.bra.cap > 0 then caps[k.bra.cap := (k.entry, i)] else caps)
            && Reenter(k.bra, out) == At(out.p, if IsMarked(k.bra) then Link(i, out.c) else out.c)
            && Tries(Nil, k, s, At(Pos(i, caps), c))
               == if IsLoop(k.bra) && !(IsMarked(k.bra) && i == c.saved)
                  then Either(k.bra.ket.lazy, Tries(Cons(k.bra, k.rest), k.k, s, Reenter(k.bra, out)), Tries(k.rest, k.k, s, out))
                  else Tries(k.rest, k.k, s, out)
  {
    hide Tries;
    TriesNil(k, s, At(Pos(i, caps), c));
  }
}
