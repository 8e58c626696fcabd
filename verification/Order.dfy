/** The order of preference among the matches of a tree: what each node matches
    is listed, the ways tried first in front, with the stretches captured on the
    way. `AltsListed` ties the lists to the language of the tree. */
module Order {
  import opened Opcodes
  import opened Tree
  import opened Language
  import Kont
  import Moves

  /** The stretches captured so far, by the number of the group. */
  type Caps = map<nat, (nat, nat)>

  datatype Pos = Pos(i: nat, caps: Caps)

  /** Every way on from each of `ms`, in order. */
  function Bind<S, T>(ms: seq<S>, f: S -> seq<T>): seq<T> {
    if ms == [] then [] else f(ms[0]) + Bind(ms[1..], f)
  }

  /** Going on before stopping, or after it if lazy. */
  function Either<T>(lazy: bool, more: seq<T>, stop: seq<T>): seq<T> {
    if lazy then stop + more else more + stop
  }

  predicate HitAt(x: Single, s: seq<byte>, i: nat) {
    WFSingle(x) && i < |s| && Hit(x, s[i])
  }

  function Less(hi: int): int { if hi > 0 then hi - 1 else hi }

  /** What is left of an upper limit after `n` bytes. */
  function Left(hi: int, n: int): int { if hi < 0 then hi else hi - n }

  /** From `lo` to `hi` bytes that `x` matches; no limit if `hi` is negative. */
  function RepO(x: Single, lo: nat, hi: int, lazy: bool, s: seq<byte>, p: Pos): seq<Pos>
    decreases |s| - p.i
  {
    var more := if hi != 0 && HitAt(x, s, p.i) then RepO(x, if lo > 0 then lo - 1 else 0, Less(hi), lazy, s, p.(i := p.i + 1)) else [];
    if lo > 0 then more else Either(lazy, more, [p])
  }

  /** The same for a repeat that gives nothing back: as many as there are. */
  function PosO(x: Single, lo: nat, hi: int, s: seq<byte>, p: Pos): seq<Pos>
    decreases |s| - p.i
  {
    if hi != 0 && HitAt(x, s, p.i) then PosO(x, if lo > 0 then lo - 1 else 0, Less(hi), s, p.(i := p.i + 1))
    else if lo > 0 then [] else [p]
  }

  function ZeroO(op: int, s: seq<byte>, p: Pos): seq<Pos> {
    if p.i <= |s| && ZeroHolds(op, s, p.i) then [p] else []
  }

  /** At the end of a group that was entered at `entry`. */
  function Close(cap: nat, entry: nat, p: Pos): Pos {
    if cap > 0 then p.(caps := p.caps[cap := (entry, p.i)]) else p
  }

  function ItemO(it: Item, s: seq<byte>, p: Pos): seq<Pos>
    decreases it, |s| - p.i
  {
    match it
    case One(x) => RepO(x, 1, 1, false, s, p)
    case Zero(op) => ZeroO(op, s, p)
    case Rep(x, k, lazy) => if IsPossessive(it) then PosO(x, Min(k), Max(k), s, p) else RepO(x, Min(k), Max(k), lazy, s, p)
    case Bra(cap, alts, ket) =>
      Bind(AltsO(alts, s, p), (e: Pos) =>
        var out := Close(cap, p.i, e);
        if ket.Again? && p.i < e.i <= |s| then Either(ket.lazy, ItemO(it, s, out), [out]) else [out])
    case BraZero(lazy, bra) => Either(lazy, ItemO(bra, s, p), [p])
  }

  function BranchO(b: Branch, s: seq<byte>, p: Pos): seq<Pos>
    decreases b, 0
  {
    match b
    case Nil => [p]
    case Cons(hd, tl) => Bind(ItemO(hd, s, p), (e: Pos) => BranchO(tl, s, e))
  }

  function AltsO(a: Alts, s: seq<byte>, p: Pos): seq<Pos>
    decreases a, 0
  {
    match a
    case Last(b) => BranchO(b, s, p)
    case More(b, rest) => BranchO(b, s, p) + AltsO(rest, s, p)
  }

  // ---- Lists ----

  lemma {:induction false} BindAppend<S, T>(ms: seq<S>, ns: seq<S>, f: S -> seq<T>)
    ensures Bind(ms + ns, f) == Bind(ms, f) + Bind(ns, f)
    decreases |ms|
  {
    if ms == [] {
      assert ms + ns == ns;
    } else {
      BindAppend(ms[1..], ns, f);
      assert (ms + ns)[1..] == ms[1..] + ns;
    }
  }

  lemma BindOne<S, T>(m: S, f: S -> seq<T>)
    ensures Bind([m], f) == f(m)
  {
    assert [m][1..] == [];
  }

  lemma BindEither<S, T>(lazy: bool, ms: seq<S>, ns: seq<S>, f: S -> seq<T>)
    ensures Bind(Either(lazy, ms, ns), f) == Either(lazy, Bind(ms, f), Bind(ns, f))
  {
    BindAppend(ms, ns, f);
    BindAppend(ns, ms, f);
  }

  lemma {:induction false} BindSame<S, T>(ms: seq<S>, f: S -> seq<T>, g: S -> seq<T>)
    requires forall x :: 0 <= x < |ms| ==> f(ms[x]) == g(ms[x])
    ensures Bind(ms, f) == Bind(ms, g)
    decreases |ms|
  {
    if ms != [] { BindSame(ms[1..], f, g); }
  }

  lemma {:induction false} BindBind<R, S, T>(ms: seq<R>, f: R -> seq<S>, g: S -> seq<T>, h: R -> seq<T>)
    requires forall x :: 0 <= x < |ms| ==> h(ms[x]) == Bind(f(ms[x]), g)
    ensures Bind(Bind(ms, f), g) == Bind(ms, h)
    decreases |ms|
  {
    if ms != [] {
      BindBind(ms[1..], f, g, h);
      BindAppend(f(ms[0]), Bind(ms[1..], f), g);
    }
  }

  lemma {:induction false} BindNone<S, T>(ms: seq<S>, f: S -> seq<T>)
    requires forall x :: 0 <= x < |ms| ==> f(ms[x]) == []
    ensures Bind(ms, f) == []
    decreases |ms|
  {
    if ms != [] { BindNone(ms[1..], f); }
  }

  lemma {:induction false} BindUnit<S>(ms: seq<S>, f: S -> seq<S>)
    requires forall x :: 0 <= x < |ms| ==> f(ms[x]) == [ms[x]]
    ensures Bind(ms, f) == ms
    decreases |ms|
  {
    if ms != [] { BindUnit(ms[1..], f); }
  }

  // ---- Unfolding ----

  function Follow(b: Branch, s: seq<byte>): Pos -> seq<Pos> { (e: Pos) => BranchO(b, s, e) }

  lemma BranchCons(hd: Item, tl: Branch, s: seq<byte>, p: Pos)
    ensures BranchO(Cons(hd, tl), s, p) == Bind(ItemO(hd, s, p), Follow(tl, s))
  {
    hide ItemO;
    BindSame(ItemO(hd, s, p), (e: Pos) => BranchO(tl, s, e), Follow(tl, s));
  }

  /** After a round that was entered at `entry`: out of the group, or again. */
  function After(bra: Item, entry: nat, s: seq<byte>): Pos -> seq<Pos>
    requires bra.Bra?
  {
    (e: Pos) =>
      var out := Close(bra.cap, entry, e);
      if bra.ket.Again? && entry < e.i <= |s| then Either(bra.ket.lazy, ItemO(bra, s, out), [out]) else [out]
  }

  lemma BraO(bra: Item, s: seq<byte>, p: Pos)
    requires bra.Bra?
    ensures ItemO(bra, s, p) == Bind(AltsO(bra.alts, s, p), After(bra, p.i, s))
  {
    hide AltsO;
    BindSame(AltsO(bra.alts, s, p), (e: Pos) =>
      var out := Close(bra.cap, p.i, e);
      if bra.ket.Again? && p.i < e.i <= |s| then Either(bra.ket.lazy, ItemO(bra, s, out), [out]) else [out], After(bra, p.i, s));
  }

  // ---- Repeats of one byte ----

  /** An exact count leaves no choice. */
  lemma {:induction false} ExactEither(x: Single, n: nat, lazy: bool, lazy': bool, s: seq<byte>, p: Pos)
    ensures RepO(x, n, n, lazy, s, p) == RepO(x, n, n, lazy', s, p)
    decreases n
  {
    if n > 0 && HitAt(x, s, p.i) { ExactEither(x, n - 1, lazy, lazy', s, p.(i := p.i + 1)); }
  }

  lemma RepMust<T>(x: Single, lo: nat, hi: int, lazy: bool, s: seq<byte>, p: Pos, f: Pos -> seq<T>)
    requires lo > 0 && hi != 0
    ensures Bind(RepO(x, lo, hi, lazy, s, p), f)
            == if HitAt(x, s, p.i) then Bind(RepO(x, lo - 1, Less(hi), lazy, s, p.(i := p.i + 1)), f) else []
  {
    hide HitAt;
  }

  /** A lazy repeat: stop here first, then take one more byte. */
  lemma RepUp<T>(x: Single, hi: int, lazy: bool, s: seq<byte>, p: Pos, f: Pos -> seq<T>)
    requires hi == 0 || lazy
    ensures Bind(RepO(x, 0, hi, lazy, s, p), f)
            == f(p) + if hi != 0 && HitAt(x, s, p.i) then Bind(RepO(x, 0, Less(hi), lazy, s, p.(i := p.i + 1)), f) else []
  {
    hide HitAt;
    BindOne(p, f);
    if hi != 0 && HitAt(x, s, p.i) { BindAppend([p], RepO(x, 0, Less(hi), lazy, s, p.(i := p.i + 1)), f); }
  }

  /** As many bytes as must be there, then as many more as there are. */
  function UnitO(possessive: bool, x: Single, lo: nat, hi: int, lazy: bool, s: seq<byte>, p: Pos): seq<Pos> {
    if possessive then PosO(x, lo, hi, s, p) else RepO(x, lo, hi, lazy, s, p)
  }

  lemma UnitMust<T>(possessive: bool, x: Single, lo: nat, hi: int, lazy: bool, s: seq<byte>, p: Pos, f: Pos -> seq<T>)
    requires lo > 0 && hi != 0
    ensures Bind(UnitO(possessive, x, lo, hi, lazy, s, p), f)
            == if HitAt(x, s, p.i) then Bind(UnitO(possessive, x, lo - 1, Less(hi), lazy, s, p.(i := p.i + 1)), f) else []
  {
    hide HitAt;
  }

  lemma PosMore(x: Single, hi: int, s: seq<byte>, p: Pos)
    ensures PosO(x, 0, hi, s, p) == if hi != 0 && HitAt(x, s, p.i) then PosO(x, 0, Less(hi), s, p.(i := p.i + 1)) else [p]
  {
    hide HitAt;
  }

  /** The positions from `q` back to `low`. */
  function GiveBack(q: int, low: nat, caps: Caps): seq<Pos>
    decreases q
  {
    if q < low then [] else [Pos(q, caps)] + GiveBack(q - 1, low, caps)
  }

  lemma NoneBack(ps: seq<Pos>, low: nat, caps: Caps)
    ensures ps + GiveBack(low - 1, low, caps) == ps
  {}

  /** A greedy repeat takes one more byte, and gives it back last. */
  lemma RepDown(x: Single, hi: int, s: seq<byte>, p: Pos, low: nat)
    requires low <= p.i
    ensures RepO(x, 0, hi, false, s, p) + GiveBack(p.i - 1, low, p.caps)
            == if hi != 0 && HitAt(x, s, p.i) then RepO(x, 0, Less(hi), false, s, p.(i := p.i + 1)) + GiveBack(p.i, low, p.caps)
               else GiveBack(p.i, low, p.caps)
  {
    hide HitAt;
  }

  lemma BackOne<T>(q: int, low: nat, caps: Caps, f: Pos -> seq<T>)
    requires q >= low
    ensures Bind(GiveBack(q, low, caps), f) == f(Pos(q, caps)) + Bind(GiveBack(q - 1, low, caps), f)
  {
    BindOne(Pos(q, caps), f);
    BindAppend([Pos(q, caps)], GiveBack(q - 1, low, caps), f);
  }

  lemma NoneLeft<T>(low: nat, caps: Caps, f: Pos -> seq<T>)
    ensures Bind(GiveBack(low - 1, low, caps), f) == []
  {}

  /** A byte too few leads nowhere. */
  lemma RepPast<T>(x: Single, lazy: bool, s: seq<byte>, p: Pos, f: Pos -> seq<T>)
    requires HitAt(x, s, p.i) && f(p) == []
    ensures Bind(RepO(x, 0, -1, lazy, s, p), f) == Bind(RepO(x, 0, -1, lazy, s, p.(i := p.i + 1)), f)
  {
    hide HitAt;
    BindEither(lazy, RepO(x, 0, -1, lazy, s, p.(i := p.i + 1)), [p], f);
    BindOne(p, f);
  }

  lemma RepStop<T>(x: Single, hi: int, lazy: bool, s: seq<byte>, p: Pos, f: Pos -> seq<T>)
    requires hi == 0 || !HitAt(x, s, p.i)
    ensures Bind(RepO(x, 0, hi, lazy, s, p), f) == f(p)
  {
    hide HitAt;
    BindOne(p, f);
  }

  // ---- The lists hold exactly the matches ----

  predicate Ends(es: seq<Pos>, j: nat) {
    exists x :: 0 <= x < |es| && es[x].i == j
  }

  lemma EndsAppend(a: seq<Pos>, b: seq<Pos>, j: nat)
    ensures Ends(a + b, j) <==> Ends(a, j) || Ends(b, j)
  {
    if Ends(a, j) { var x :| 0 <= x < |a| && a[x].i == j; assert (a + b)[x].i == j; }
    if Ends(b, j) { var x :| 0 <= x < |b| && b[x].i == j; assert (a + b)[|a| + x].i == j; }
  }

  lemma EndsEither(lazy: bool, a: seq<Pos>, b: seq<Pos>, j: nat)
    ensures Ends(Either(lazy, a, b), j) <==> Ends(a, j) || Ends(b, j)
  {
    hide Ends;
    EndsAppend(a, b, j);
    EndsAppend(b, a, j);
  }

  lemma EndsOne(p: Pos, j: nat)
    ensures Ends([p], j) <==> p.i == j
  {
    assert [p][0].i == p.i;
  }

  lemma {:induction false} EndsBind(ms: seq<Pos>, f: Pos -> seq<Pos>, j: nat)
    ensures Ends(Bind(ms, f), j) <==> exists x :: 0 <= x < |ms| && Ends(f(ms[x]), j)
    decreases |ms|
  {
    hide Ends;
    if ms == [] {
      NoEnds(j);
    } else {
      EndsAppend(f(ms[0]), Bind(ms[1..], f), j);
      EndsBind(ms[1..], f, j);
      if x :| 0 <= x < |ms[1..]| && Ends(f(ms[1..][x]), j) { assert Ends(f(ms[x + 1]), j); }
      if x :| 0 <= x < |ms| && Ends(f(ms[x]), j) { assert x == 0 || Ends(f(ms[1..][x - 1]), j); }
    }
  }

  lemma NoEnds(j: nat)
    ensures !Ends([], j)
  {}

  lemma {:induction false} RepListed(x: Single, lo: nat, hi: int, lazy: bool, s: seq<byte>, p: Pos, j: nat)
    requires WFSingle(x) && p.i <= |s| && (hi < 0 || lo <= hi)
    ensures Ends(RepO(x, lo, hi, lazy, s, p), j) <==> Run(x, s, p.i, j) && lo <= j - p.i && (hi < 0 || j - p.i <= hi)
    decreases |s| - p.i
  {
    hide Ends, Hit;
    var more := if hi != 0 && HitAt(x, s, p.i) then RepO(x, if lo > 0 then lo - 1 else 0, Less(hi), lazy, s, p.(i := p.i + 1)) else [];
    EndsEither(lazy, more, [p], j);
    EndsOne(p, j);
    NoEnds(j);
    if hi != 0 && HitAt(x, s, p.i) {
      RepListed(x, if lo > 0 then lo - 1 else 0, Less(hi), lazy, s, p.(i := p.i + 1), j);
    }
    RunStep(x, s, p.i, j);
  }

  lemma RunStep(x: Single, s: seq<byte>, i: nat, j: nat)
    requires WFSingle(x) && i <= |s|
    ensures Run(x, s, i, j) <==> i == j || (HitAt(x, s, i) && Run(x, s, i + 1, j))
  {
    hide Hit;
  }

  lemma {:induction false} ItemListed(it: Item, s: seq<byte>, p: Pos, j: nat)
    requires WFItem(it) && p.i <= |s|
    ensures Ends(ItemO(it, s, p), j) <==> ItemL(it, s, p.i, j)
    decreases it, |s| - p.i, 2
  {
    hide Ends, AltsL, Iter, Run;
    match it
    case One(x) => SingleListed(it, x, 1, 1, false, s, p, j);
    case Rep(x, k, lazy) =>
      if IsPossessive(it) { PosListed(it, s, p, j); } else { SingleListed(it, x, Min(k), Max(k), lazy, s, p, j); }
    case Zero(op) =>
      EndsOne(p, j);
      NoEnds(j);
    case Bra(cap, alts, ket) => BraListed(it, s, p, j);
    case BraZero(lazy, bra) =>
      ItemListed(bra, s, p, j);
      EndsEither(lazy, ItemO(bra, s, p), [p], j);
      EndsOne(p, j);
      BraZeroL(it, s, p.i, j);
  }

  lemma SingleListed(it: Item, x: Single, lo: nat, hi: int, lazy: bool, s: seq<byte>, p: Pos, j: nat)
    requires Repeats(it, x, lo, hi) && WFItem(it) && !IsPossessive(it) && WFSingle(x) && p.i <= |s|
    ensures Ends(RepO(x, lo, hi, lazy, s, p), j) <==> ItemL(it, s, p.i, j)
  {
    hide Ends, ItemL, Run;
    RepeatsL(it, x, lo, hi, s, p.i, j);
    RepListed(x, lo, hi, lazy, s, p, j);
  }

  lemma {:induction false} LongestListed(x: Single, lo: nat, hi: int, s: seq<byte>, p: Pos, j: nat)
    requires WFSingle(x) && p.i <= |s| && (hi < 0 || lo <= hi)
    ensures Ends(PosO(x, lo, hi, s, p), j) <==>
            Run(x, s, p.i, j) && lo <= j - p.i && (hi < 0 || j - p.i <= hi) && Full(x, hi, s, p.i, j)
    decreases |s| - p.i
  {
    hide Ends, Hit;
    EndsOne(p, j);
    NoEnds(j);
    if hi != 0 && HitAt(x, s, p.i) {
      LongestListed(x, if lo > 0 then lo - 1 else 0, Less(hi), s, p.(i := p.i + 1), j);
    }
    RunStep(x, s, p.i, j);
  }

  lemma PosListed(it: Item, s: seq<byte>, p: Pos, j: nat)
    requires IsPossessive(it) && WFItem(it) && p.i <= |s|
    ensures Ends(PosO(it.x, Min(it.kind), Max(it.kind), s, p), j) <==> ItemL(it, s, p.i, j)
  {
    hide Ends, ItemL, Run, PosO;
    RepeatsL(it, it.x, Min(it.kind), Max(it.kind), s, p.i, j);
    LongestListed(it.x, Min(it.kind), Max(it.kind), s, p, j);
  }

  lemma {:induction false} BraListed(bra: Item, s: seq<byte>, p: Pos, j: nat)
    requires bra.Bra? && WFItem(bra) && p.i <= |s|
    ensures Ends(ItemO(bra, s, p), j) <==> ItemL(bra, s, p.i, j)
    decreases bra, |s| - p.i, 1
  {
    hide Ends, AltsL, Iter, AltsO, ItemO, ItemL, After;
    var es, f := AltsO(bra.alts, s, p), After(bra, p.i, s);
    BraO(bra, s, p);
    BraL(bra, s, p.i, j);
    EndsBind(es, f, j);
    WFBraAlts(bra);
    if x :| 0 <= x < |es| && Ends(f(es[x]), j) {
      AltsHas(bra.alts, s, p, es[x]);
      RoundListed(bra, s, p, es[x], j);
      if bra.ket.Again? {
        if es[x].i == j {
          IterNone(bra.alts, s, j, j);
          IterMore(bra.alts, s, 0, p.i, j, j);
        } else {
          BraL(bra, s, es[x].i, j);
          var n: nat :| n > 0 && Iter(bra.alts, s, n, es[x].i, j);
          IterMore(bra.alts, s, n, p.i, es[x].i, j);
        }
      }
    }
    if ItemL(bra, s, p.i, j) {
      var m: nat := j;
      if bra.ket.Again? {
        var n: nat :| n > 0 && Iter(bra.alts, s, n, p.i, j);
        m := Moves.FirstRound(bra.alts, s, n, p.i, j);
      }
      AltsListed(bra.alts, s, p, m);
      var x := WhichEnds(es, m);
      AltsRange(bra.alts, s, p.i, m);
      if m < j { RoundsMatch(bra, s, m, j); }
      RoundListed(bra, s, p, es[x], j);
      assert Ends(f(es[x]), j);
    }
  }

  lemma RoundsMatch(bra: Item, s: seq<byte>, m: nat, j: nat)
    requires m < j && Kont.IsLoop(bra) && Kont.Rounds(bra.alts, s, m, j)
    ensures ItemL(bra, s, m, j)
  {
    hide ItemL, Iter, AltsL;
    var n := Moves.RoundsIter(bra.alts, s, m, j);
    BraL(bra, s, m, j);
    assert n > 0 && Iter(bra.alts, s, n, m, j);
  }

  lemma WFBraAlts(bra: Item)
    requires bra.Bra? && WFItem(bra)
    ensures WFAlts(bra.alts)
  {}

  lemma WhichEnds(es: seq<Pos>, j: nat) returns (x: nat)
    requires Ends(es, j)
    ensures x < |es| && es[x].i == j
  {
    x :| 0 <= x < |es| && es[x].i == j;
  }

  lemma AltsHas(a: Alts, s: seq<byte>, p: Pos, e: Pos)
    requires WFAlts(a) && p.i <= |s| && e in AltsO(a, s, p)
    ensures AltsL(a, s, p.i, e.i) && p.i <= e.i <= |s|
    decreases a, 1
  {
    hide AltsL, AltsO;
    var es := AltsO(a, s, p);
    var x :| 0 <= x < |es| && es[x] == e;
    assert Ends(es, e.i);
    AltsListed(a, s, p, e.i);
    AltsRange(a, s, p.i, e.i);
  }

  /** What is listed after one round. */
  lemma {:induction false} RoundListed(bra: Item, s: seq<byte>, p: Pos, e: Pos, j: nat)
    requires bra.Bra? && WFItem(bra) && p.i <= e.i <= |s|
    ensures Ends(After(bra, p.i, s)(e), j) <==> e.i == j || (bra.ket.Again? && p.i < e.i && ItemL(bra, s, e.i, j))
    decreases bra, |s| - p.i, 0
  {
    hide Ends, ItemL, ItemO, WFItem;
    var out := Close(bra.cap, p.i, e);
    EndsOne(out, j);
    if bra.ket.Again? && p.i < e.i {
      EndsEither(bra.ket.lazy, ItemO(bra, s, out), [out], j);
      BraListed(bra, s, out, j);
    }
  }

  lemma {:induction false} BranchListed(b: Branch, s: seq<byte>, p: Pos, j: nat)
    requires WFBranch(b) && p.i <= |s|
    ensures Ends(BranchO(b, s, p), j) <==> BranchL(b, s, p.i, j)
    decreases b, 0
  {
    hide Ends, ItemL, ItemO, BranchL, BranchO, WFItem;
    if b.Nil? {
      NilL(s, p.i, j);
      NilOrder(s, p);
      EndsOne(p, j);
    } else {
      var es := ItemO(b.hd, s, p);
      BranchCons(b.hd, b.tl, s, p);
      EndsBind(es, Follow(b.tl, s), j);
      if x :| 0 <= x < |es| && Ends(Follow(b.tl, s)(es[x]), j) {
        ItemHas(b.hd, s, p, es, x);
        BranchListed(b.tl, s, es[x], j);
        ConsL(b, s, p.i, es[x].i, j);
      }
      if BranchL(b, s, p.i, j) {
        var m := Uncons(b, s, p.i, j);
        BranchRange(b, s, p.i, j);
        ItemListed(b.hd, s, p, m);
        var x := WhichEnds(es, m);
        BranchListed(b.tl, s, es[x], j);
        assert Ends(Follow(b.tl, s)(es[x]), j);
      }
    }
  }

  lemma NilOrder(s: seq<byte>, p: Pos)
    ensures BranchO(Nil, s, p) == [p]
  {}

  lemma ItemHas(it: Item, s: seq<byte>, p: Pos, es: seq<Pos>, x: nat)
    requires WFItem(it) && p.i <= |s| && es == ItemO(it, s, p) && x < |es|
    ensures ItemL(it, s, p.i, es[x].i) && es[x].i <= |s|
    decreases it, |s| - p.i, 3
  {
    hide ItemL, ItemO;
    assert Ends(es, es[x].i);
    ItemListed(it, s, p, es[x].i);
    ItemRange(it, s, p.i, es[x].i);
  }

  /** The list of a group's alternatives ends at every position where a match
      ends, and nowhere else. */
  lemma {:induction false} AltsListed(a: Alts, s: seq<byte>, p: Pos, j: nat)
    requires WFAlts(a) && p.i <= |s|
    ensures Ends(AltsO(a, s, p), j) <==> AltsL(a, s, p.i, j)
    decreases a, 0
  {
    hide Ends, BranchL, BranchO, AltsL, WFBranch;
    AltsSplit(a, s, p.i, j);
    BranchListed(a.b, s, p, j);
    if a.More? {
      AltsListed(a.rest, s, p, j);
      EndsAppend(BranchO(a.b, s, p), AltsO(a.rest, s, p), j);
    }
  }
}
