/** Which match of a pattern is preferred: the alternatives from left to right,
    greedy quantifiers taking as much as they can and lazy ones as little, and
    the captures this leaves behind. Said of patterns as written; then proved of
    the code that is emitted for them. */
module Prefer {
  import opened Opcodes
  import opened Tree
  import opened Pattern
  import opened AutoPossess
  import opened Translate
  import opened Order
  import Language

  /** The least and the greatest number of rounds. */
  function Least(q: Quant): nat { if q.None? then 1 else q.min }
  function Most(q: Quant): int { if q.None? then 1 else q.max }
  predicate Lazy(q: Quant) { q.Quant? && q.lazy }

  /** `n` groups open before this item. */
  function PieceO(it: Piece, n: nat, s: seq<byte>, p: Pos): seq<Pos>
    decreases it, 0
  {
    match it
    case Char(x, q) => UnitO(Keeps(q), x, Least(q), Most(q), Lazy(q), s, p)
    case Place(op) => ZeroO(op, s, p)
    case Group(capturing, alts, q) =>
      if capturing then RoundsO(alts, n + 1, n + 1, Least(q), Most(q), Lazy(q), s, p)
      else RoundsO(alts, 0, n, Least(q), Most(q), Lazy(q), s, p)
  }

  /** From `min` to `max` rounds of a group, without limit if `max` is negative.
      Where there is no limit, a round that need not be there and consumes
      nothing is the last. */
  function RoundsO(a: PAlts, cap: nat, n: nat, min: nat, max: int, lazy: bool, s: seq<byte>, p: Pos): seq<Pos>
    decreases a, 1, min + (if max > 0 then max else 0), |s| - p.i
  {
    var more :=
      if max == 0 then []
      else
        Bind(PAltsO(a, n, s, p), (e: Pos) =>
          var out := Close(cap, p.i, e);
          if max < 0 && min <= 1 && !(p.i < e.i <= |s|) then [out]
          else RoundsO(a, cap, n, if min > 0 then min - 1 else 0, Less(max), lazy, s, out));
    if min > 0 then more else Either(lazy, more, [p])
  }

  function PBranchO(b: PBranch, n: nat, s: seq<byte>, p: Pos): seq<Pos>
    decreases b, 0
  {
    match b
    case End => [p]
    case Then(hd, tl) => Bind(PieceO(hd, n, s, p), (e: Pos) => PBranchO(tl, n + Captures(hd), s, e))
  }

  function PAltsO(a: PAlts, n: nat, s: seq<byte>, p: Pos): seq<Pos>
    decreases a, 0
  {
    match a
    case Only(b) => PBranchO(b, n, s, p)
    case Or(b, rest) => PBranchO(b, n, s, p) + PAltsO(rest, n + BranchCaptures(b), s, p)
  }

  // ---- Unfolding ----

  function PFollow(b: PBranch, n: nat, s: seq<byte>): Pos -> seq<Pos> { (e: Pos) => PBranchO(b, n, s, e) }

  lemma PBranchThen(hd: Piece, tl: PBranch, n: nat, s: seq<byte>, p: Pos)
    ensures PBranchO(Then(hd, tl), n, s, p) == Bind(PieceO(hd, n, s, p), PFollow(tl, n + Captures(hd), s))
  {
    hide PieceO;
    BindSame(PieceO(hd, n, s, p), (e: Pos) => PBranchO(tl, n + Captures(hd), s, e), PFollow(tl, n + Captures(hd), s));
  }

  /** After a round that was entered at `entry`. */
  function Next(a: PAlts, cap: nat, n: nat, min: nat, max: int, lazy: bool, s: seq<byte>, entry: nat): Pos -> seq<Pos> {
    (e: Pos) =>
      var out := Close(cap, entry, e);
      if max < 0 && min <= 1 && !(entry < e.i <= |s|) then [out]
      else RoundsO(a, cap, n, if min > 0 then min - 1 else 0, Less(max), lazy, s, out)
  }

  /** One round and what comes after it. */
  function RoundO(a: PAlts, cap: nat, n: nat, min: nat, max: int, lazy: bool, s: seq<byte>, p: Pos): seq<Pos> {
    Bind(PAltsO(a, n, s, p), Next(a, cap, n, min, max, lazy, s, p.i))
  }

  lemma RoundsSplit(a: PAlts, cap: nat, n: nat, min: nat, max: int, lazy: bool, s: seq<byte>, p: Pos)
    ensures RoundsO(a, cap, n, min, max, lazy, s, p) ==
            var more := if max == 0 then [] else RoundO(a, cap, n, min, max, lazy, s, p);
            if min > 0 then more else Either(lazy, more, [p])
  {
    hide PAltsO;
    BindSame(PAltsO(a, n, s, p), (e: Pos) =>
      var out := Close(cap, p.i, e);
      if max < 0 && min <= 1 && !(p.i < e.i <= |s|) then [out]
      else RoundsO(a, cap, n, if min > 0 then min - 1 else 0, Less(max), lazy, s, out), Next(a, cap, n, min, max, lazy, s, p.i));
  }

  // ---- Branches one after another ----

  lemma {:induction false} AppendO(a: Branch, b: Branch, s: seq<byte>, p: Pos)
    ensures BranchO(Append(a, b), s, p) == Bind(BranchO(a, s, p), Follow(b, s))
    decreases a
  {
    hide ItemO, BranchO;
    if a.Nil? {
      NilOrder(s, p);
      BindOne(p, Follow(b, s));
    } else {
      BranchCons(a.hd, a.tl, s, p);
      BranchCons(a.hd, Append(a.tl, b), s, p);
      forall e: Pos ensures Follow(Append(a.tl, b), s)(e) == Bind(Follow(a.tl, s)(e), Follow(b, s)) { AppendO(a.tl, b, s, e); }
      BindBind(ItemO(a.hd, s, p), Follow(a.tl, s), Follow(b, s), Follow(Append(a.tl, b), s));
    }
  }

  lemma OneOrder(it: Item, s: seq<byte>, p: Pos)
    ensures BranchO(Cons(it, Nil), s, p) == ItemO(it, s, p)
  {
    hide ItemO;
    BranchCons(it, Nil, s, p);
    BindUnit(ItemO(it, s, p), Follow(Nil, s));
  }

  // ---- Repeats of one byte ----

  lemma LessThan(n: nat, hi: int)
    requires n > 0
    ensures Less(n) == n - 1 && Less(if hi < 0 then hi else n + hi) == if hi < 0 then hi else n - 1 + hi
  {}

  lemma {:induction false} RepSplit(possessive: bool, x: Single, n: nat, hi: int, lazy: bool, s: seq<byte>, p: Pos, f: Pos -> seq<Pos>, g: Pos -> seq<Pos>)
    requires forall e: Pos :: g(e) == Bind(UnitO(possessive, x, 0, hi, lazy, s, e), f)
    ensures Bind(RepO(x, n, n, false, s, p), g) == Bind(UnitO(possessive, x, n, if hi < 0 then hi else n + hi, lazy, s, p), f)
    decreases n
  {
    hide RepO, UnitO, HitAt, Bind, Less;
    if n == 0 {
      RepStop(x, 0, false, s, p, g);
    } else {
      var hi' := if hi < 0 then hi else n + hi;
      LessThan(n, hi);
      RepMust(x, n, n, false, s, p, g);
      UnitMust(possessive, x, n, hi', lazy, s, p, f);
      if HitAt(x, s, p.i) {
        RepSplit(possessive, x, n - 1, hi, lazy, s, p.(i := p.i + 1), f, g);
      }
    }
  }

  /** Where giving back leads nowhere, greedy, lazy and possessive are the same. */
  lemma {:induction false} AllTheSame(x: Single, lo: nat, lazy: bool, s: seq<byte>, p: Pos, f: Pos -> seq<Pos>)
    requires forall e: Pos :: HitAt(x, s, e.i) ==> f(e) == []
    ensures Bind(RepO(x, lo, -1, lazy, s, p), f) == Bind(PosO(x, lo, -1, s, p), f)
    decreases |s| - p.i
  {
    hide RepO;
    if lo > 0 {
      RepMust(x, lo, -1, lazy, s, p, f);
      if HitAt(x, s, p.i) { AllTheSame(x, lo - 1, lazy, s, p.(i := p.i + 1), f); }
    } else if HitAt(x, s, p.i) {
      RepPast(x, lazy, s, p, f);
      AllTheSame(x, 0, lazy, s, p.(i := p.i + 1), f);
    } else {
      RepStop(x, -1, lazy, s, p, f);
      BindOne(p, f);
    }
  }

  lemma StoppedO(x: Single, b: Branch, s: seq<byte>, e: Pos)
    requires Stops(x, b) && HitAt(x, s, e.i)
    ensures BranchO(b, s, e) == []
  {
    hide BranchO, Hit;
    BranchCons(b.hd, b.tl, s, e);
    assert ItemO(b.hd, s, e) == [];
  }

  /** An exact count leaves no choice, so nothing to give back either. */
  lemma {:induction false} ExactUnit(possessive: bool, x: Single, n: nat, lazy: bool, s: seq<byte>, p: Pos)
    ensures UnitO(possessive, x, n, n, lazy, s, p) == RepO(x, n, n, false, s, p)
    decreases n
  {
    if n > 0 && HitAt(x, s, p.i) { ExactUnit(possessive, x, n - 1, lazy, s, p.(i := p.i + 1)); }
  }

  /** An item that is a repeat, in front of the rest of a branch. */
  lemma RepeatHead(it: Item, possessive: bool, x: Single, lo: nat, hi: int, lazy: bool, rest: Branch, s: seq<byte>, p: Pos)
    requires IsRepeat(it, possessive, x, lo, hi, lazy)
    ensures BranchO(Cons(it, rest), s, p) == Bind(UnitO(possessive, x, lo, hi, lazy, s, p), Follow(rest, s))
  {
    hide RepO, PosO, BranchO, IsPossessive;
    BranchCons(it, rest, s, p);
    if lo == hi {
      ExactUnit(possessive, x, lo, lazy, s, p);
      ExactEither(x, lo, false, it.Rep? && it.lazy, s, p);
    }
  }

  /** EXACT and what may follow it. */
  lemma ExactThen(it: Item, possessive: bool, x: Single, n: nat, hi: int, lazy: bool, more: Branch, rest: Branch, s: seq<byte>, p: Pos)
    requires IsRepeat(it, false, x, n, n, false)
    requires forall e: Pos :: BranchO(more, s, e) == Bind(UnitO(possessive, x, 0, hi, lazy, s, e), Follow(rest, s))
    ensures BranchO(Cons(it, more), s, p) == Bind(UnitO(possessive, x, n, if hi < 0 then hi else n + hi, lazy, s, p), Follow(rest, s))
  {
    hide UnitO, RepO, BranchO, IsPossessive;
    RepeatHead(it, false, x, n, n, false, more, s, p);
    ExactUnit(false, x, n, false, s, p);
    RepSplit(possessive, x, n, hi, lazy, s, p, Follow(rest, s), Follow(more, s));
  }

  /** `it` is one of the two forms of a repeat. */
  predicate IsRepeat(it: Item, possessive: bool, x: Single, lo: nat, hi: int, lazy: bool) {
    && Language.Repeats(it, x, lo, hi)
    && (if lo == hi then !IsPossessive(it) else possessive == IsPossessive(it) && (possessive || !it.Rep? || lazy == it.lazy))
  }

  lemma SingleForm(x: Single, min: nat, max: int, lazy: bool, possessive: bool)
    requires (max == -1 || (0 < max && min <= max)) && !(possessive && min == 1 && max > 1)
    ensures var b := CodeSingle(x, min, max, lazy, possessive);
            && b.Cons? && (b.tl.Nil? ==> IsRepeat(b.hd, possessive, x, min, max, lazy))
            && (b.tl.Cons? ==> b.tl.tl.Nil? && IsRepeat(b.hd, false, x, min, min, false) &&
                               IsRepeat(b.tl.hd, possessive, x, 0, if max == -1 then -1 else max - min, lazy))
  {}

  /** The code for {min,max} takes the numbers of bytes that it allows in the
      order that the quantifier asks for. */
  lemma SingleO(x: Single, q: Quant, possessive: bool, rest: Branch, s: seq<byte>, p: Pos)
    requires q.Quant? && WFQuant(q) && !(possessive && q.min == 1 && q.max > 1)
    ensures BranchO(Append(CodeSingle(x, q.min, q.max, q.lazy, possessive), rest), s, p)
            == Bind(UnitO(possessive, x, q.min, q.max, q.lazy, s, p), Follow(rest, s))
  {
    hide UnitO, RepO, PosO, BranchO, CodeSingle, IsRepeat;
    var min, max, lazy := q.min, q.max, q.lazy;
    var b := CodeSingle(x, min, max, lazy, possessive);
    SingleForm(x, min, max, lazy, possessive);
    if b.tl.Nil? {
      assert Append(b, rest) == Cons(b.hd, rest);
      RepeatHead(b.hd, possessive, x, min, max, lazy, rest, s, p);
    } else {
      var more := Cons(b.tl.hd, rest);
      assert Append(b.tl, rest) == more;
      assert Append(b, rest) == Cons(b.hd, more);
      var hi := if max == -1 then -1 else max - min;
      forall e: Pos ensures BranchO(more, s, e) == Bind(UnitO(possessive, x, 0, hi, lazy, s, e), Follow(rest, s)) {
        RepeatHead(b.tl.hd, possessive, x, 0, hi, lazy, rest, s, e);
      }
      ExactThen(b.hd, possessive, x, min, hi, lazy, more, rest, s, p);
    }
  }

  /** A repeat that the compiler makes possessive. */
  lemma AutoO(x: Single, q: Quant, rest: Branch, s: seq<byte>, p: Pos)
    requires q.Quant? && WFQuant(q) && q.max == -1 && Stops(x, rest)
    ensures BranchO(Append(CodeSingle(x, q.min, -1, q.lazy, true), rest), s, p)
            == Bind(UnitO(false, x, q.min, -1, q.lazy, s, p), Follow(rest, s))
  {
    hide RepO, PosO, BranchO, Stops, CodeSingle;
    SingleO(x, q, true, rest, s, p);
    forall e: Pos | HitAt(x, s, e.i) ensures Follow(rest, s)(e) == [] { StoppedO(x, rest, s, e); }
    AllTheSame(x, q.min, q.lazy, s, p, Follow(rest, s));
  }

  lemma ClassO(x: Single, q: Quant, rest: Branch, s: seq<byte>, p: Pos)
    requires q.Quant? && WFQuant(q)
    ensures BranchO(Append(CodeClass(x, q.min, q.max, q.lazy), rest), s, p) == Bind(UnitO(false, x, q.min, q.max, q.lazy, s, p), Follow(rest, s))
  {
    hide UnitO, BranchO;
    var b := CodeClass(x, q.min, q.max, q.lazy);
    assert Append(b, rest) == Cons(b.hd, rest);
    RepeatHead(b.hd, false, x, q.min, q.max, q.lazy, rest, s, p);
  }

  lemma CharO(it: Piece, next: PBranch, n: nat, rest: Branch, s: seq<byte>, p: Pos)
    requires it.Char? && WFPiece(it) && CoveredPiece(it) && (!it.x.Set? && Possessify(it.x, it.q, next) ==> Stops(it.x, rest))
    ensures BranchO(Append(CodePiece(it, next, n), rest), s, p) == Bind(PieceO(it, n, s, p), Follow(rest, s))
  {
    hide BranchO, UnitO, Stops, AutoPossessive, CodeSingle, CodeClass;
    if it.q.None? {
      assert Append(CodePiece(it, next, n), rest) == Cons(One(it.x), rest);
      RepeatHead(One(it.x), false, it.x, 1, 1, false, rest, s, p);
    } else if it.x.Set? {
      ClassO(it.x, it.q, rest, s, p);
    } else if Possessify(it.x, it.q, next) {
      AutoO(it.x, it.q, rest, s, p);
    } else {
      SingleO(it.x, it.q, it.q.possessive, rest, s, p);
    }
  }

  // ---- Repeats of a group ----

  /** The code `g` has what the pattern `a` has, for one round. */
  ghost predicate Same(g: Item, a: PAlts, n: nat, s: seq<byte>)
    requires g.Bra?
  {
    g.ket.Once? && forall p: Pos :: AltsO(g.alts, s, p) == PAltsO(a, n, s, p)
  }

  /** One round, and code that goes on with the other rounds. */
  lemma RoundThen(g: Item, rest: Branch, a: PAlts, n: nat, min: nat, max: int, lazy: bool, s: seq<byte>, p: Pos)
    requires g.Bra? && Same(g, a, n, s) && max != 0 && !(max < 0 && min <= 1)
    requires forall e: Pos :: BranchO(rest, s, e) == RoundsO(a, g.cap, n, if min > 0 then min - 1 else 0, Less(max), lazy, s, e)
    ensures BranchO(Cons(g, rest), s, p) == RoundO(a, g.cap, n, min, max, lazy, s, p)
  {
    hide BranchO, AltsO, PAltsO, RoundsO, ItemO;
    BranchCons(g, rest, s, p);
    BraO(g, s, p);
    var next := Next(a, g.cap, n, min, max, lazy, s, p.i);
    forall e: Pos ensures next(e) == Bind(After(g, p.i, s)(e), Follow(rest, s)) { BindOne(Close(g.cap, p.i, e), Follow(rest, s)); }
    BindBind(AltsO(g.alts, s, p), After(g, p.i, s), Follow(rest, s), next);
  }

  lemma {:induction false} CopiesO(g: Item, k: nat, rest: Branch, a: PAlts, n: nat, min: nat, max: int, lazy: bool, s: seq<byte>, p: Pos)
    requires g.Bra? && Same(g, a, n, s) && (max < 0 ==> min > 0)
    requires forall e: Pos :: BranchO(rest, s, e) == RoundsO(a, g.cap, n, min, max, lazy, s, e)
    ensures BranchO(Copies(g, k, rest), s, p) == RoundsO(a, g.cap, n, k + min, if max < 0 then max else k + max, lazy, s, p)
    decreases k
  {
    hide BranchO, AltsO, PAltsO, RoundsO, RoundO, Same;
    if k > 0 {
      var max' := if max < 0 then max else k + max;
      var copies, min', less := Copies(g, k - 1, rest), k + min - 1, Less(max');
      forall e: Pos ensures BranchO(copies, s, e) == RoundsO(a, g.cap, n, min', less, lazy, s, e) {
        CopiesO(g, k - 1, rest, a, n, min, max, lazy, s, e);
      }
      RoundThen(g, copies, a, n, k + min, max', lazy, s, p);
      RoundsSplit(a, g.cap, n, k + min, max', lazy, s, p);
    }
  }

  lemma NoRounds(a: PAlts, cap: nat, n: nat, lazy: bool, s: seq<byte>, p: Pos)
    ensures RoundsO(a, cap, n, 0, 0, lazy, s, p) == [p]
  {}

  lemma {:induction false} NestedO(g: Item, k: nat, a: PAlts, n: nat, lazy: bool, s: seq<byte>, p: Pos)
    requires g.Bra? && Same(g, a, n, s)
    ensures BranchO(Nested(g, k, lazy), s, p) == RoundsO(a, g.cap, n, 0, k, lazy, s, p)
    decreases k
  {
    hide BranchO, AltsO, PAltsO, RoundsO, RoundO, Same, ItemO;
    if k == 0 {
      NilOrder(s, p);
      NoRounds(a, g.cap, n, lazy, s, p);
    } else {
      var body := Cons(g, Nested(g, k - 1, lazy));
      forall e: Pos ensures BranchO(Nested(g, k - 1, lazy), s, e) == RoundsO(a, g.cap, n, 0, Less(k), lazy, s, e) {
        NestedO(g, k - 1, a, n, lazy, s, e);
      }
      RoundThen(g, Nested(g, k - 1, lazy), a, n, 0, k, lazy, s, p);
      RoundsSplit(a, g.cap, n, 0, k, lazy, s, p);
      if k == 1 { OneOrder(g, s, p); } else { WrappedO(body, s, p); }
      ZeroOrMore(lazy, if k == 1 then g else Bra(0, Last(body), Once), s, p);
    }
  }

  /** A plain bracket around a branch changes nothing. */
  lemma WrappedO(b: Branch, s: seq<byte>, p: Pos)
    ensures ItemO(Bra(0, Last(b), Once), s, p) == BranchO(b, s, p)
  {
    hide BranchO, ItemO;
    var bra := Bra(0, Last(b), Once);
    BraO(bra, s, p);
    BindUnit(BranchO(b, s, p), After(bra, p.i, s));
  }

  lemma ZeroOrMore(lazy: bool, g: Item, s: seq<byte>, p: Pos)
    ensures BranchO(Cons(BraZero(lazy, g), Nil), s, p) == Either(lazy, ItemO(g, s, p), [p])
  {
    hide BranchO;
    OneOrder(BraZero(lazy, g), s, p);
  }

  /** The looping copy: one round or more, until a round consumes nothing. */
  lemma {:induction false} LoopingO(g: Item, a: PAlts, n: nat, lazy: bool, s: seq<byte>, p: Pos)
    requires g.Bra? && Same(g, a, n, s)
    ensures ItemO(Looping(g, lazy, false), s, p) == RoundsO(a, g.cap, n, 1, -1, lazy, s, p)
    decreases |s| - p.i
  {
    hide BranchO, AltsO, PAltsO, RoundsO, ItemO;
    var it := Looping(g, lazy, false);
    var f, h := After(it, p.i, s), Next(a, g.cap, n, 1, -1, lazy, s, p.i);
    BraO(it, s, p);
    RoundsSplit(a, g.cap, n, 1, -1, lazy, s, p);
    forall e: Pos ensures f(e) == h(e) {
      if p.i < e.i <= |s| {
        var out := Close(g.cap, p.i, e);
        LoopingO(g, a, n, lazy, s, out);
        OneOrNone(a, g.cap, n, lazy, s, out);
      }
    }
    BindSame(AltsO(it.alts, s, p), f, h);
  }

  lemma OneOrNone(a: PAlts, cap: nat, n: nat, lazy: bool, s: seq<byte>, p: Pos)
    ensures RoundsO(a, cap, n, 0, -1, lazy, s, p) == Either(lazy, RoundsO(a, cap, n, 1, -1, lazy, s, p), [p])
  {
    hide PAltsO, RoundsO;
    RoundsSplit(a, cap, n, 0, -1, lazy, s, p);
    RoundsSplit(a, cap, n, 1, -1, lazy, s, p);
    BindSame(PAltsO(a, n, s, p), Next(a, cap, n, 0, -1, lazy, s, p.i), Next(a, cap, n, 1, -1, lazy, s, p.i));
  }

  /** The copies of a group are its rounds, in the same order. */
  lemma GroupO(g: Item, q: Quant, a: PAlts, n: nat, s: seq<byte>, p: Pos)
    requires g.Bra? && Same(g, a, n, s) && WFQuant(q) && !Keeps(q)
    ensures BranchO(CodeGroup(g, q), s, p) == RoundsO(a, g.cap, n, Least(q), Most(q), Lazy(q), s, p)
  {
    hide BranchO, AltsO, PAltsO, RoundsO, ItemO;
    if q.None? {
      forall e: Pos ensures BranchO(Nil, s, e) == RoundsO(a, g.cap, n, 0, 0, false, s, e) { NilOrder(s, e); NoRounds(a, g.cap, n, false, s, e); }
      CopiesO(g, 1, Nil, a, n, 0, 0, false, s, p);
      assert Copies(g, 1, Nil) == Cons(g, Copies(g, 0, Nil));
    } else {
      var min, max, lazy := q.min, q.max, q.lazy;
      if min == 0 && max == -1 {
        LoopingO(g, a, n, lazy, s, p);
        ZeroOrMore(lazy, Looping(g, lazy, false), s, p);
        OneOrNone(a, g.cap, n, lazy, s, p);
      } else if min == 0 {
        NestedO(g, max, a, n, lazy, s, p);
      } else if max == -1 {
        var rest := Cons(Looping(g, lazy, false), Nil);
        forall e: Pos ensures BranchO(rest, s, e) == RoundsO(a, g.cap, n, 1, -1, lazy, s, e) {
          OneOrder(Looping(g, lazy, false), s, e);
          LoopingO(g, a, n, lazy, s, e);
        }
        CopiesO(g, min - 1, rest, a, n, 1, -1, lazy, s, p);
      } else {
        var k: nat := max - min;
        var rest := Nested(g, k, lazy);
        forall e: Pos ensures BranchO(rest, s, e) == RoundsO(a, g.cap, n, 0, k, lazy, s, e) { NestedO(g, k, a, n, lazy, s, e); }
        CopiesO(g, min, rest, a, n, 0, k, lazy, s, p);
      }
    }
  }

  // ---- The emitted code prefers what the pattern prefers ----

  lemma {:induction false} PieceSame(it: Piece, next: PBranch, n: nat, n': nat, s: seq<byte>, p: Pos)
    requires WFPiece(it) && WFPBranch(next) && CoveredPiece(it) && CoveredBranch(next) && SpelledPiece(it, next)
    ensures var rest := CodeBranch(next, n');
            BranchO(Append(CodePiece(it, next, n), rest), s, p) == Bind(PieceO(it, n, s, p), Follow(rest, s))
    decreases it, 1
  {
    hide BranchO, AltsO, PAltsO, RoundsO, CodeBranch, Stops, AutoPossessive, CodeGroup;
    var rest := CodeBranch(next, n');
    match it
    case Char(x, q) =>
      if !x.Set? && Possessify(x, q, next) { NextStops(x, next, n'); }
      CharO(it, next, n, rest, s, p);
    case Place(op) =>
      AppendO(CodePiece(it, next, n), rest, s, p);
      OneOrder(Zero(op), s, p);
    case Group(capturing, alts, q) =>
      var m := if capturing then n + 1 else n;
      var g := Bra(if capturing then n + 1 else 0, CodeAlts(alts, m), Once);
      forall e: Pos ensures AltsO(g.alts, s, e) == PAltsO(alts, m, s, e) { AltsSame(alts, m, s, e); }
      AppendO(CodePiece(it, next, n), rest, s, p);
      GroupO(g, q, alts, m, s, p);
  }

  lemma {:induction false} BranchSame(b: PBranch, n: nat, s: seq<byte>, p: Pos)
    requires WFPBranch(b) && CoveredBranch(b) && SpelledBranch(b)
    ensures BranchO(CodeBranch(b, n), s, p) == PBranchO(b, n, s, p)
    decreases b, 0
  {
    hide BranchO, PBranchO, CodePiece, PieceO;
    match b
    case End =>
      NilOrder(s, p);
      EndOrder(n, s, p);
    case Then(hd, tl) =>
      var n' := n + Captures(hd);
      PieceSame(hd, tl, n, n', s, p);
      PBranchThen(hd, tl, n, s, p);
      forall e: Pos ensures Follow(CodeBranch(tl, n'), s)(e) == PFollow(tl, n', s)(e) { BranchSame(tl, n', s, e); }
      BindSame(PieceO(hd, n, s, p), Follow(CodeBranch(tl, n'), s), PFollow(tl, n', s));
  }

  lemma EndOrder(n: nat, s: seq<byte>, p: Pos)
    ensures PBranchO(End, n, s, p) == [p]
  {}

  /** Compilation preserves the order of preference, and the captures. */
  lemma {:induction false} AltsSame(a: PAlts, n: nat, s: seq<byte>, p: Pos)
    requires WFPAlts(a) && CoveredAlts(a) && SpelledAlts(a)
    ensures AltsO(CodeAlts(a, n), s, p) == PAltsO(a, n, s, p)
    decreases a, 0
  {
    hide BranchO, PBranchO, CodeBranch, SpelledBranch, CoveredBranch, WFPBranch;
    BranchSame(a.b, n, s, p);
    if a.Or? { AltsSame(a.rest, n + BranchCaptures(a.b), s, p); }
  }

  /** The list ends exactly where matches of the pattern end. */
  lemma PatternListed(a: PAlts, n: nat, s: seq<byte>, p: Pos, j: nat)
    requires WFPAlts(a) && CoveredAlts(a) && SpelledAlts(a) && p.i <= |s|
    ensures Ends(PAltsO(a, n, s, p), j) <==> PAltsL(a, s, p.i, j)
  {
    hide AltsO, PAltsO, PAltsL, AltsL, Ends, CodeAlts;
    AltsSame(a, n, s, p);
    AltsShaped(a, n);
    AltsListed(CodeAlts(a, n), s, p, j);
    AltsMatch(a, n, s, p.i, j);
  }
}
