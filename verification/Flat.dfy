/** Where the chain of group starts does not mislead match(): in code in which no
    marked group contains another, what it tries is what is preferred. */
module Flat {
  import opened Opcodes
  import opened Tree
  import opened Kont
  import opened Order
  import opened Backtrack

  /** No marked group here. */
  predicate PlainItem(it: Item)
    decreases it
  {
    match it
    case Bra(_, alts, _) => !IsMarked(it) && PlainAlts(alts)
    case BraZero(_, bra) => PlainItem(bra)
    case _ => true
  }

  predicate PlainBranch(b: Branch)
    decreases b
  {
    b.Cons? ==> PlainItem(b.hd) && PlainBranch(b.tl)
  }

  predicate PlainAlts(a: Alts)
    decreases a
  {
    PlainBranch(a.b) && (a.More? ==> PlainAlts(a.rest))
  }

  /** No marked group inside another. */
  predicate ApartItem(it: Item)
    decreases it
  {
    match it
    case Bra(_, alts, _) => if IsMarked(it) then PlainAlts(alts) else ApartAlts(alts)
    case BraZero(_, bra) => ApartItem(bra)
    case _ => true
  }

  predicate ApartBranch(b: Branch)
    decreases b
  {
    b.Cons? ==> ApartItem(b.hd) && ApartBranch(b.tl)
  }

  predicate ApartAlts(a: Alts)
    decreases a
  {
    ApartBranch(a.b) && (a.More? ==> ApartAlts(a.rest))
  }

  // ---- Without marked groups the chain stays as it is ----

  lemma {:induction false} ChainBind(ps: seq<Pos>, c: Chain, c': Chain, f: At -> seq<At>, g: Pos -> seq<Pos>)
    requires forall x :: 0 <= x < |ps| ==> f(At(ps[x], c)) == Bind(g(ps[x]), WithChain(c'))
    ensures Bind(Bind(ps, WithChain(c)), f) == Bind(Bind(ps, g), WithChain(c'))
    decreases |ps|
  {
    if ps != [] {
      ChainBind(ps[1..], c, c', f, g);
      BindAppend([At(ps[0], c)], Bind(ps[1..], WithChain(c)), f);
      BindOne(At(ps[0], c), f);
      BindAppend(g(ps[0]), Bind(ps[1..], g), WithChain(c'));
    }
  }

  lemma {:induction false} PlainItemOrder(it: Item, s: seq<byte>, st: At)
    requires PlainItem(it)
    ensures ItemM(it, s, st) == Bind(ItemO(it, s, st.p), WithChain(st.c))
    decreases it, |s| - st.p.i
  {
    hide AltsO, AltsM, PlainAlts;
    match it
    case Bra(_, alts, ket) =>
      BraM(it, s, st);
      BraO(it, s, st.p);
      PlainAltsOrder(alts, s, st);
      var ps := AltsO(alts, s, st.p);
      forall x | 0 <= x < |ps| ensures AfterM(it, st.p.i, s)(At(ps[x], st.c)) == Bind(After(it, st.p.i, s)(ps[x]), WithChain(st.c)) {
        PlainRound(it, s, st.p.i, ps[x], st);
      }
      ChainBind(ps, st.c, st.c, AfterM(it, st.p.i, s), After(it, st.p.i, s));
    case BraZero(lazy, bra) =>
      PlainItemOrder(bra, s, st);
      BindEither(lazy, ItemO(bra, s, st.p), [st.p], WithChain(st.c));
      BindOne(st.p, WithChain(st.c));
    case _ =>
  }

  lemma {:induction false} PlainRound(bra: Item, s: seq<byte>, entry: nat, p: Pos, st: At)
    requires bra.Bra? && PlainItem(bra) && entry == st.p.i
    ensures AfterM(bra, entry, s)(At(p, st.c)) == Bind(After(bra, entry, s)(p), WithChain(st.c))
    decreases bra, |s| - entry, 0
  {
    hide ItemM, ItemO, PlainAlts;
    var out := Close(bra.cap, entry, p);
    BindOne(out, WithChain(st.c));
    if bra.ket.Again? && entry < p.i <= |s| {
      PlainItemOrder(bra, s, At(out, st.c));
      BindEither(bra.ket.lazy, ItemO(bra, s, out), [out], WithChain(st.c));
    }
  }

  lemma {:induction false} PlainBranchOrder(b: Branch, s: seq<byte>, st: At)
    requires PlainBranch(b)
    ensures BranchM(b, s, st) == Bind(BranchO(b, s, st.p), WithChain(st.c))
    decreases b, 0
  {
    hide ItemO, ItemM, PlainItem;
    match b
    case Nil => BindOne(st.p, WithChain(st.c));
    case Cons(hd, tl) =>
      BranchCons(hd, tl, s, st.p);
      BranchMCons(hd, tl, s, st);
      PlainItemOrder(hd, s, st);
      forall p: Pos ensures FollowM(tl, s)(At(p, st.c)) == Bind(Follow(tl, s)(p), WithChain(st.c)) { PlainBranchOrder(tl, s, At(p, st.c)); }
      ChainBind(ItemO(hd, s, st.p), st.c, st.c, FollowM(tl, s), Follow(tl, s));
  }

  lemma {:induction false} PlainAltsOrder(a: Alts, s: seq<byte>, st: At)
    requires PlainAlts(a)
    ensures AltsM(a, s, st) == Bind(AltsO(a, s, st.p), WithChain(st.c))
    decreases a, 0
  {
    hide BranchO, BranchM, PlainBranch;
    PlainBranchOrder(a.b, s, st);
    if a.More? {
      PlainAltsOrder(a.rest, s, st);
      BindAppend(BranchO(a.b, s, st.p), AltsO(a.rest, s, st.p), WithChain(st.c));
    }
  }

  // ---- Without nested marked groups the positions are the preferred ones ----

  function JustPos(): At -> seq<Pos> { (e: At) => [e.p] }

  /** The list without the chains. */
  function Positions(ms: seq<At>): seq<Pos> { Bind(ms, JustPos()) }

  lemma {:induction false} PosBind(ms: seq<At>, f: At -> seq<At>, g: Pos -> seq<Pos>)
    requires forall e: At :: Positions(f(e)) == g(e.p)
    ensures Positions(Bind(ms, f)) == Bind(Positions(ms), g)
    decreases |ms|
  {
    if ms != [] {
      PosBind(ms[1..], f, g);
      BindAppend(f(ms[0]), Bind(ms[1..], f), JustPos());
      BindAppend([ms[0].p], Positions(ms[1..]), g);
      BindOne(ms[0].p, g);
    }
  }

  lemma {:induction false} PosChain(ps: seq<Pos>, c: Chain)
    ensures Positions(Bind(ps, WithChain(c))) == ps
    decreases |ps|
  {
    if ps != [] {
      PosChain(ps[1..], c);
      BindAppend([At(ps[0], c)], Bind(ps[1..], WithChain(c)), JustPos());
      BindOne(At(ps[0], c), JustPos());
    }
  }

  lemma PosOne(e: At)
    ensures Positions([e]) == [e.p]
  {
    BindOne(e, JustPos());
  }

  lemma {:induction false} ItemOrder(it: Item, s: seq<byte>, st: At)
    requires ApartItem(it)
    ensures Positions(ItemM(it, s, st)) == ItemO(it, s, st.p)
    decreases it, |s| - st.p.i, 2
  {
    hide AltsO, AltsM, ApartAlts, PlainAlts, Positions;
    match it
    case Bra(_, alts, ket) =>
      if IsMarked(it) {
        MarkedOrder(it, s, st);
      } else {
        BraM(it, s, st);
        BraO(it, s, st.p);
        AltsOrder(alts, s, st);
        forall e: At ensures Positions(AfterM(it, st.p.i, s)(e)) == After(it, st.p.i, s)(e.p) { RoundOrder(it, s, st.p.i, e); }
        PosBind(AltsM(alts, s, st), AfterM(it, st.p.i, s), After(it, st.p.i, s));
      }
    case BraZero(lazy, bra) =>
      ItemOrder(bra, s, st);
      PosEither(lazy, ItemM(bra, s, st), [st]);
      PosOne(st);
    case _ => PosChain(ItemO(it, s, st.p), st.c);
  }

  lemma PosEither(lazy: bool, a: seq<At>, b: seq<At>)
    ensures Positions(Either(lazy, a, b)) == Either(lazy, Positions(a), Positions(b))
  {
    BindEither(lazy, a, b, JustPos());
  }

  /** An unmarked group goes by the position alone. */
  lemma {:induction false} RoundOrder(bra: Item, s: seq<byte>, entry: nat, e: At)
    requires bra.Bra? && ApartItem(bra) && !IsMarked(bra)
    ensures Positions(AfterM(bra, entry, s)(e)) == After(bra, entry, s)(e.p)
    decreases bra, |s| - entry, 0
  {
    hide ItemM, ItemO, ApartAlts, Positions;
    var out := Out(bra, entry, e);
    PosOne(out);
    if bra.ket.Again? && entry < e.p.i <= |s| {
      ItemOrder(bra, s, out);
      PosEither(bra.ket.lazy, ItemM(bra, s, out), [out]);
    }
  }

  /** A marked group without marked groups inside finds its own start on top of
      the chain. */
  lemma {:induction false} MarkedOrder(bra: Item, s: seq<byte>, st: At)
    requires ApartItem(bra) && IsMarked(bra)
    ensures Positions(ItemM(bra, s, st)) == ItemO(bra, s, st.p)
    decreases bra, |s| - st.p.i, 1
  {
    hide AltsO, AltsM, PlainAlts, Positions;
    var entry := st.p.i;
    var c := Link(entry, st.c);
    BraM(bra, s, st);
    BraO(bra, s, st.p);
    PlainAltsOrder(bra.alts, s, At(st.p, c));
    var ps := AltsO(bra.alts, s, st.p);
    forall p: Pos ensures Positions(AfterM(bra, entry, s)(At(p, c))) == After(bra, entry, s)(p) { MarkedRound(bra, s, entry, p, st.c); }
    PosChainBind(ps, c, AfterM(bra, entry, s), After(bra, entry, s));
  }

  lemma {:induction false} MarkedRound(bra: Item, s: seq<byte>, entry: nat, p: Pos, c: Chain)
    requires ApartItem(bra) && IsMarked(bra)
    ensures Positions(AfterM(bra, entry, s)(At(p, Link(entry, c)))) == After(bra, entry, s)(p)
    decreases bra, |s| - entry, 0
  {
    hide ItemM, ItemO, PlainAlts, Positions;
    var out := Out(bra, entry, At(p, Link(entry, c)));
    PosOne(out);
    if entry < p.i <= |s| {
      MarkedOrder(bra, s, Reenter(bra, out));
      PosEither(bra.ket.lazy, ItemM(bra, s, Reenter(bra, out)), [out]);
    }
  }

  lemma {:induction false} PosChainBind(ps: seq<Pos>, c: Chain, f: At -> seq<At>, g: Pos -> seq<Pos>)
    requires forall p: Pos :: Positions(f(At(p, c))) == g(p)
    ensures Positions(Bind(Bind(ps, WithChain(c)), f)) == Bind(ps, g)
    decreases |ps|
  {
    if ps != [] {
      PosChainBind(ps[1..], c, f, g);
      BindAppend([At(ps[0], c)], Bind(ps[1..], WithChain(c)), f);
      BindOne(At(ps[0], c), f);
      BindAppend(f(At(ps[0], c)), Bind(Bind(ps[1..], WithChain(c)), f), JustPos());
    }
  }

  lemma {:induction false} BranchOrder(b: Branch, s: seq<byte>, st: At)
    requires ApartBranch(b)
    ensures Positions(BranchM(b, s, st)) == BranchO(b, s, st.p)
    decreases b, 0
  {
    hide ItemO, ItemM, ApartItem, Positions;
    match b
    case Nil => PosOne(st);
    case Cons(hd, tl) =>
      BranchCons(hd, tl, s, st.p);
      BranchMCons(hd, tl, s, st);
      ItemOrder(hd, s, st);
      forall e: At ensures Positions(FollowM(tl, s)(e)) == Follow(tl, s)(e.p) { BranchOrder(tl, s, e); }
      PosBind(ItemM(hd, s, st), FollowM(tl, s), Follow(tl, s));
  }

  /** What match() tries, in the order of preference. */
  lemma {:induction false} AltsOrder(a: Alts, s: seq<byte>, st: At)
    requires ApartAlts(a)
    ensures Positions(AltsM(a, s, st)) == AltsO(a, s, st.p)
    decreases a, 0
  {
    hide BranchO, BranchM, ApartBranch;
    BranchOrder(a.b, s, st);
    if a.More? {
      AltsOrder(a.rest, s, st);
      BindAppend(BranchM(a.b, s, st), AltsM(a.rest, s, st), JustPos());
    }
  }
}
