/** The code that compile_branch() and compile_regex() emit for a pattern, as a
    tree, and a proof that it matches what the pattern matches. */
module Translate {
  import opened Opcodes
  import opened Tree
  import opened Language
  import opened Pattern
  import opened AutoPossess

  function Append(a: Branch, b: Branch): Branch {
    match a
    case Nil => b
    case Cons(hd, tl) => Cons(hd, Append(tl, b))
  }

  /** Up to `max` more of a character or type, without limit if `max` is -1. */
  function Further(x: Single, max: int, lazy: bool, possessive: bool): Item
    requires max == -1 || max > 0
  {
    if possessive then Rep(x, if max == -1 then PosStar else if max == 1 then PosQuery else PosUpto(max), false)
    else Rep(x, if max == -1 then Star else if max == 1 then Query else Upto(max), lazy)
  }

  /** Atomic brackets around a piece of code. */
  function Wrapped(b: Branch): Branch {
    Cons(Bra(0, Last(b), Atomic), Nil)
  }

  /** The repeat of a character or type: an EXACT for what must be there, then
      what may follow. A minimum of one keeps the item itself; if it is followed
      by an UPTO, the two get atomic brackets to become possessive. */
  function CodeSingle(x: Single, min: nat, max: int, lazy: bool, possessive: bool): Branch
    requires max == -1 || (0 < max && min <= max)
  {
    if min == 0 then Cons(Further(x, max, lazy, possessive), Nil)
    else if min == 1 then
      if max == -1 then Cons(if possessive then Rep(x, PosPlus, false) else Rep(x, Plus, lazy), Nil)
      else if max == 1 then Cons(One(x), Nil)
      else if possessive then Wrapped(Cons(One(x), Cons(Rep(x, Upto(max - 1), false), Nil)))
      else Cons(One(x), Cons(Rep(x, Upto(max - 1), lazy), Nil))
    else
      Cons(Rep(x, Exact(min), false),
           if max == min then Nil else Cons(Further(x, if max == -1 then -1 else max - min, lazy, possessive), Nil))
  }

  /** The repeat of a class; a range that has no upper limit is stored with 0. */
  function CodeClass(x: Single, min: nat, max: int, lazy: bool): Branch
    requires max >= -1
  {
    var kind := if min == 0 && max == -1 then Star
                else if min == 1 && max == -1 then Plus
                else if min == 0 && max == 1 then Query
                else Range(min, if max == -1 then 0 else max);
    Cons(Rep(x, kind, lazy), Nil)
  }

  /** Up to `k` more copies, each inside the one before. */
  function Nested(g: Item, k: nat, lazy: bool): Branch {
    if k == 0 then Nil
    else if k == 1 then Cons(BraZero(lazy, g), Nil)
    else Cons(BraZero(lazy, Bra(0, Last(Cons(g, Nested(g, k - 1, lazy))), Once)), Nil)
  }

  function Copies(g: Item, n: nat, rest: Branch): Branch {
    if n == 0 then rest else Cons(g, Copies(g, n - 1, rest))
  }

  /** The last copy of an unlimited group, marked when it could match nothing. */
  function Looping(g: Item, lazy: bool, possessive: bool): Item
    requires g.Bra?
  {
    Bra(g.cap, g.alts, if possessive then Possess(NullAlts(g.alts)) else Again(lazy, NullAlts(g.alts)))
  }

  /** The copies of a group for {min,max}; only an unlimited repeat has a
      possessive form. */
  function Repeated(g: Item, min: nat, max: int, lazy: bool, possessive: bool): Branch
    requires g.Bra? && (max == -1 || (0 < max && min <= max))
  {
    if min == 0 then
      if max == -1 then Cons(BraZero(lazy, Looping(g, lazy, possessive)), Nil) else Nested(g, max, lazy)
    else if max == -1 then Copies(g, min - 1, Cons(Looping(g, lazy, possessive), Nil))
    else Copies(g, min, Nested(g, max - min, lazy))
  }

  function CodeGroup(g: Item, q: Quant): Branch
    requires g.Bra? && WFQuant(q)
  {
    if q.None? then Cons(g, Nil)
    else if q.possessive && q.max != -1 then Wrapped(Repeated(g, q.min, q.max, false, false))
    else Repeated(g, q.min, q.max, q.lazy, q.possessive)
  }

  /** Whether an unlimited repeat of `x` is made possessive before `next`. */
  predicate Possessify(x: Single, q: Quant, next: PBranch) {
    q.Quant? && !q.possessive && q.max == -1 && AutoPossessive(x, next)
  }

  /** `next` follows the item in its branch; `n` is the number of capturing
      brackets opened so far. */
  function CodePiece(p: Piece, next: PBranch, n: nat): Branch
    requires WFPiece(p)
    decreases p
  {
    match p
    case Char(x, q) =>
      if q.None? then Cons(One(x), Nil)
      else if x.Set? then if q.possessive then Wrapped(CodeClass(x, q.min, q.max, false)) else CodeClass(x, q.min, q.max, q.lazy)
      else CodeSingle(x, q.min, q.max, q.lazy, q.possessive || Possessify(x, q, next))
    case Place(op) => Cons(Zero(op), Nil)
    case Group(capturing, alts, q) =>
      CodeGroup(Bra(if capturing then n + 1 else 0, CodeAlts(alts, if capturing then n + 1 else n), Once), q)
  }

  function CodeBranch(b: PBranch, n: nat): Branch
    requires WFPBranch(b)
    decreases b
  {
    match b
    case End => Nil
    case Then(hd, tl) => Append(CodePiece(hd, tl, n), CodeBranch(tl, n + Captures(hd)))
  }

  function CodeAlts(a: PAlts, n: nat): Alts
    requires WFPAlts(a)
    decreases a
  {
    match a
    case Only(b) => Last(CodeBranch(b, n))
    case Or(b, rest) => More(CodeBranch(b, n), CodeAlts(rest, n + BranchCaptures(b)))
  }

  /** How many capturing brackets an item opens. */
  function Captures(p: Piece): nat
    decreases p
  {
    match p
    case Char(_, _) => 0
    case Place(_) => 0
    case Group(capturing, alts, _) => (if capturing then 1 else 0) + AltsCaptures(alts)
  }

  function BranchCaptures(b: PBranch): nat
    decreases b
  {
    match b
    case End => 0
    case Then(hd, tl) => Captures(hd) + BranchCaptures(tl)
  }

  function AltsCaptures(a: PAlts): nat
    decreases a
  {
    BranchCaptures(a.b) + if a.Or? then AltsCaptures(a.rest) else 0
  }

  /** The last item of the code for an unlimited repeat keeps what it took if and
      only if that is written, or nothing that it could give back can come next. */
  lemma PossessiveCode(p: Piece, next: PBranch, n: nat)
    requires p.Char? && WFPiece(p) && Simple(p.x) && p.q.Quant? && p.q.max == -1
    requires next.Then? && next.hd.Char? && Simple(next.hd.x)
    ensures var b := CodePiece(p, next, n); var last := if b.tl.Cons? then b.tl.hd else b.hd;
            IsPossessive(last) <==> p.q.possessive || (!(next.hd.q.Quant? && next.hd.q.seen) && Disjoint(p.x, next.hd.x))
  {
    hide AutoPossessive, Disjoint;
    AutoExact(p.x, next);
  }

  // ---- Counted repeats mean what they say ----

  lemma {:induction false} AppendL(a: Branch, b: Branch, s: seq<byte>, i: nat, j: nat)
    ensures BranchL(Append(a, b), s, i, j) <==> exists m: nat :: BranchL(a, s, i, m) && BranchL(b, s, m, j)
    decreases a
  {
    hide ItemL, BranchL;
    if a.Nil? {
      BranchRange(b, s, i, j);
      forall m: nat ensures BranchL(a, s, i, m) <==> i == m <= |s| { NilL(s, i, m); }
    } else {
      var c := Append(a, b);
      if BranchL(c, s, i, j) {
        var x := Uncons(c, s, i, j);
        AppendL(a.tl, b, s, x, j);
        var m: nat :| BranchL(a.tl, s, x, m) && BranchL(b, s, m, j);
        ConsL(a, s, i, x, m);
      }
      if exists m: nat :: BranchL(a, s, i, m) && BranchL(b, s, m, j) {
        var m: nat :| BranchL(a, s, i, m) && BranchL(b, s, m, j);
        var x := Uncons(a, s, i, m);
        AppendL(a.tl, b, s, x, j);
        ConsL(c, s, i, x, j);
      }
    }
  }

  lemma OneItem(it: Item, s: seq<byte>, i: nat, j: nat)
    ensures BranchL(Cons(it, Nil), s, i, j) <==> ItemL(it, s, i, j)
  {
    hide ItemL, BranchL;
    var b := Cons(it, Nil);
    if BranchL(b, s, i, j) {
      var m := Uncons(b, s, i, j);
      NilL(s, m, j);
    }
    if ItemL(it, s, i, j) {
      ItemRange(it, s, i, j);
      NilL(s, j, j);
      ConsL(b, s, i, j, j);
    }
  }

  lemma TwoItems(a: Item, b: Item, s: seq<byte>, i: nat, j: nat)
    ensures BranchL(Cons(a, Cons(b, Nil)), s, i, j) <==>
            exists m: nat :: i <= m <= j && ItemL(a, s, i, m) && ItemL(b, s, m, j)
  {
    hide ItemL, BranchL;
    var c := Cons(a, Cons(b, Nil));
    if BranchL(c, s, i, j) {
      var m := Uncons(c, s, i, j);
      OneItem(b, s, m, j);
    }
    if exists m: nat :: i <= m <= j && ItemL(a, s, i, m) && ItemL(b, s, m, j) {
      var m: nat :| i <= m <= j && ItemL(a, s, i, m) && ItemL(b, s, m, j);
      OneItem(b, s, m, j);
      ConsL(c, s, i, m, j);
    }
  }

  /** Any split of a run of `x` between an exact count and a repeat. */
  lemma RunTwo(a: Item, b: Item, x: Single, s: seq<byte>, i: nat, j: nat, lo: nat, hi': int)
    requires Repeats(a, x, lo, lo) && !IsPossessive(a) && Repeats(b, x, 0, hi')
    ensures BranchL(Cons(a, Cons(b, Nil)), s, i, j) <==>
            Run(x, s, i, j) && lo <= j - i && (hi' < 0 || j - i <= lo + hi') &&
            (IsPossessive(b) ==> Full(x, if hi' < 0 then hi' else lo + hi', s, i, j))
  {
    hide ItemL, BranchL, Repeats, IsPossessive, Hit;
    TwoItems(a, b, s, i, j);
    if BranchL(Cons(a, Cons(b, Nil)), s, i, j) {
      var m: nat :| i <= m <= j && ItemL(a, s, i, m) && ItemL(b, s, m, j);
      RepeatsL(a, x, lo, lo, s, i, m);
      RepeatsL(b, x, 0, hi', s, m, j);
    }
    if Run(x, s, i, j) && lo <= j - i && (hi' < 0 || j - i <= lo + hi') && (IsPossessive(b) ==> Full(x, if hi' < 0 then hi' else lo + hi', s, i, j)) {
      var m: nat := i + lo;
      RepeatsL(a, x, lo, lo, s, i, m);
      RepeatsL(b, x, 0, hi', s, m, j);
    }
  }

  /** EXACT, UPTO, STAR, PLUS and QUERY together accept from min to max bytes;
      the possessive forms accept only as many as there are. */
  lemma SingleRepeats(x: Single, min: nat, max: int, lazy: bool, possessive: bool, s: seq<byte>, i: nat, j: nat)
    requires WFSingle(x) && (max == -1 || (0 < max && min <= max)) && !(possessive && min == 1 && max > 1)
    ensures BranchL(CodeSingle(x, min, max, lazy, possessive), s, i, j) <==>
            Run(x, s, i, j) && min <= j - i && (max < 0 || j - i <= max) && (possessive ==> Full(x, max, s, i, j))
  {
    hide BranchL, ItemL, Run, Hit;
    var b := CodeSingle(x, min, max, lazy, possessive);
    if b.tl.Nil? {
      OneItem(b.hd, s, i, j);
      RepeatsL(b.hd, x, min, max, s, i, j);
    } else {
      RunTwo(b.hd, b.tl.hd, x, s, i, j, min, if max == -1 then -1 else max - min);
    }
  }

  lemma ClassRepeats(x: Single, min: nat, max: int, lazy: bool, s: seq<byte>, i: nat, j: nat)
    requires WFSingle(x) && (max == -1 || (0 < max && min <= max))
    ensures BranchL(CodeClass(x, min, max, lazy), s, i, j) <==> Run(x, s, i, j) && min <= j - i && (max < 0 || j - i <= max)
  {
    OneItem(CodeClass(x, min, max, lazy).hd, s, i, j);
  }

  lemma {:induction false} IterJoin(a: Alts, s: seq<byte>, n: nat, k: nat, i: nat, m: nat, j: nat)
    requires Iter(a, s, n, i, m) && Iter(a, s, k, m, j)
    ensures Iter(a, s, n + k, i, j)
    decreases n
  {
    hide AltsL, Iter;
    if n == 0 {
      IterNone(a, s, i, m);
    } else {
      var x := IterSplit(a, s, n, i, m);
      IterJoin(a, s, n - 1, k, x, m, j);
      IterMore(a, s, n + k - 1, i, x, j);
    }
  }

  lemma {:induction false} IterCut(a: Alts, s: seq<byte>, n: nat, k: nat, i: nat, j: nat) returns (m: nat)
    requires Iter(a, s, n + k, i, j)
    ensures Iter(a, s, n, i, m) && Iter(a, s, k, m, j)
    decreases n
  {
    hide AltsL, Iter;
    if n == 0 {
      m := i;
      IterRange(a, s, k, i, j);
      IterNone(a, s, i, i);
    } else {
      var x := IterSplit(a, s, n + k, i, j);
      m := IterCut(a, s, n - 1, k, x, j);
      IterMore(a, s, n - 1, i, x, m);
    }
  }

  /** From `lo` to `hi` rounds; no limit if `hi` is negative. */
  ghost predicate Rounds(a: Alts, s: seq<byte>, lo: nat, hi: int, i: nat, j: nat) {
    exists n: nat :: lo <= n && (hi < 0 || n <= hi) && Iter(a, s, n, i, j)
  }

  lemma {:induction false} CopiesL(g: Item, n: nat, rest: Branch, s: seq<byte>, i: nat, j: nat)
    requires g.Bra? && g.ket.Once?
    ensures BranchL(Copies(g, n, rest), s, i, j) <==>
            exists m: nat :: Iter(g.alts, s, n, i, m) && BranchL(rest, s, m, j)
    decreases n
  {
    hide AltsL, ItemL, BranchL, Iter;
    if n == 0 {
      BranchRange(rest, s, i, j);
      forall m: nat ensures Iter(g.alts, s, 0, i, m) <==> i == m <= |s| { IterNone(g.alts, s, i, m); }
    } else {
      var b := Copies(g, n, rest);
      if BranchL(b, s, i, j) {
        var x := Uncons(b, s, i, j);
        BraL(g, s, i, x);
        CopiesL(g, n - 1, rest, s, x, j);
        var m: nat :| Iter(g.alts, s, n - 1, x, m) && BranchL(rest, s, m, j);
        IterMore(g.alts, s, n - 1, i, x, m);
      }
      if exists m: nat :: Iter(g.alts, s, n, i, m) && BranchL(rest, s, m, j) {
        var m: nat :| Iter(g.alts, s, n, i, m) && BranchL(rest, s, m, j);
        var x := IterSplit(g.alts, s, n, i, m);
        CopiesL(g, n - 1, rest, s, x, j);
        BraL(g, s, i, x);
        ConsL(b, s, i, x, j);
      }
    }
  }

  lemma Optional(lazy: bool, g: Item, s: seq<byte>, i: nat, j: nat)
    ensures BranchL(Cons(BraZero(lazy, g), Nil), s, i, j) <==> i == j <= |s| || ItemL(g, s, i, j)
  {
    hide ItemL, BranchL;
    OneItem(BraZero(lazy, g), s, i, j);
    BraZeroL(BraZero(lazy, g), s, i, j);
  }

  /** The nested optional copies accept up to `k` rounds. */
  lemma {:induction false} NestedL(g: Item, k: nat, lazy: bool, s: seq<byte>, i: nat, j: nat)
    requires g.Bra? && g.ket.Once?
    ensures BranchL(Nested(g, k, lazy), s, i, j) <==> Rounds(g.alts, s, 0, k, i, j)
    decreases k
  {
    hide AltsL, ItemL, BranchL, Iter;
    IterNone(g.alts, s, i, j);
    if k == 0 {
      NilL(s, i, j);
    } else if k == 1 {
      Optional(lazy, g, s, i, j);
      OnceIter(g, s, i, j);
    } else {
      var body := Cons(g, Nested(g, k - 1, lazy));
      Optional(lazy, Bra(0, Last(body), Once), s, i, j);
      LastL(body, s, i, j);
      if BranchL(body, s, i, j) {
        var x := Uncons(body, s, i, j);
        BraL(g, s, i, x);
        NestedL(g, k - 1, lazy, s, x, j);
        var n: nat :| n <= k - 1 && Iter(g.alts, s, n, x, j);
        IterMore(g.alts, s, n, i, x, j);
      }
      if Rounds(g.alts, s, 0, k, i, j) {
        var n: nat :| n <= k && Iter(g.alts, s, n, i, j);
        if n > 0 {
          var x := IterSplit(g.alts, s, n, i, j);
          NestedL(g, k - 1, lazy, s, x, j);
          BraL(g, s, i, x);
          ConsL(body, s, i, x, j);
        }
      }
    }
  }

  lemma LastL(b: Branch, s: seq<byte>, i: nat, j: nat)
    ensures ItemL(Bra(0, Last(b), Once), s, i, j) <==> BranchL(b, s, i, j)
  {
    hide BranchL, ItemL;
    BraL(Bra(0, Last(b), Once), s, i, j);
    AltsSplit(Last(b), s, i, j);
  }

  lemma RoundsJoin(a: Alts, s: seq<byte>, n: nat, lo: nat, hi: int, i: nat, j: nat)
    ensures (exists m: nat :: Iter(a, s, n, i, m) && Rounds(a, s, lo, hi, m, j)) <==>
            Rounds(a, s, n + lo, if hi < 0 then hi else n + hi, i, j)
  {
    hide Iter;
    if exists m: nat :: Iter(a, s, n, i, m) && Rounds(a, s, lo, hi, m, j) {
      var m: nat :| Iter(a, s, n, i, m) && Rounds(a, s, lo, hi, m, j);
      var k: nat :| lo <= k && (hi < 0 || k <= hi) && Iter(a, s, k, m, j);
      IterJoin(a, s, n, k, i, m, j);
    }
    if Rounds(a, s, n + lo, if hi < 0 then hi else n + hi, i, j) {
      var k: nat :| n + lo <= k && (hi < 0 || k <= n + hi) && Iter(a, s, k, i, j);
      var m := IterCut(a, s, n, k - n, i, j);
    }
  }

  lemma LoopingL(g: Item, lazy: bool, s: seq<byte>, i: nat, j: nat)
    requires g.Bra?
    ensures ItemL(Looping(g, lazy, false), s, i, j) <==> Rounds(g.alts, s, 1, -1, i, j)
  {
    hide ItemL, Iter;
    var it := Looping(g, lazy, false);
    BraL(it, s, i, j);
    if ItemL(it, s, i, j) {
      var n: nat :| n > 0 && Iter(it.alts, s, n, i, j);
      assert 1 <= n && (-1 < 0 || n <= -1) && Iter(g.alts, s, n, i, j);
    }
    if Rounds(g.alts, s, 1, -1, i, j) {
      var n: nat :| 1 <= n && Iter(g.alts, s, n, i, j);
      assert n > 0 && Iter(it.alts, s, n, i, j);
    }
  }

  /** The copies of a group, nested where they are optional, accept from min to
      max rounds. */
  lemma GroupRepeats(g: Item, q: Quant, s: seq<byte>, i: nat, j: nat)
    requires g.Bra? && g.ket.Once? && WFQuant(q) && !Keeps(q)
    ensures BranchL(CodeGroup(g, q), s, i, j) <==> exists n: nat :: Times(q, n) && Iter(g.alts, s, n, i, j)
  {
    hide AltsL, Iter, BranchL, ItemL;
    if q.None? {
      OneItem(g, s, i, j);
      OnceIter(g, s, i, j);
    } else {
      var min, max, lazy := q.min, q.max, q.lazy;
      if min == 0 && max == -1 {
        Optional(lazy, Looping(g, lazy, false), s, i, j);
        LoopingL(g, lazy, s, i, j);
        ZeroIter(g.alts, s, i, j);
      } else if min == 0 {
        NestedL(g, max, lazy, s, i, j);
      } else if max == -1 {
        var rest := Cons(Looping(g, lazy, false), Nil);
        CopiesL(g, min - 1, rest, s, i, j);
        forall m: nat ensures BranchL(rest, s, m, j) <==> Rounds(g.alts, s, 1, -1, m, j) {
          OneItem(Looping(g, lazy, false), s, m, j);
          LoopingL(g, lazy, s, m, j);
        }
        RoundsJoin(g.alts, s, min - 1, 1, -1, i, j);
      } else {
        var rest := Nested(g, max - min, lazy);
        CopiesL(g, min, rest, s, i, j);
        forall m: nat ensures BranchL(rest, s, m, j) <==> Rounds(g.alts, s, 0, max - min, m, j) {
          NestedL(g, max - min, lazy, s, m, j);
        }
        RoundsJoin(g.alts, s, min, 0, max - min, i, j);
      }
      assert Rounds(g.alts, s, min, max, i, j) <==> exists n: nat :: Times(q, n) && Iter(g.alts, s, n, i, j);
    }
  }

  lemma OnceIter(g: Item, s: seq<byte>, i: nat, j: nat)
    requires g.Bra? && g.ket.Once?
    ensures ItemL(g, s, i, j) <==> Iter(g.alts, s, 1, i, j)
  {
    hide ItemL, Iter, AltsL;
    BraL(g, s, i, j);
    if AltsL(g.alts, s, i, j) {
      AltsRange(g.alts, s, i, j);
      IterNone(g.alts, s, j, j);
      IterMore(g.alts, s, 0, i, j, j);
    }
    if Iter(g.alts, s, 1, i, j) {
      var m := IterSplit(g.alts, s, 1, i, j);
    }
  }

  lemma ZeroIter(a: Alts, s: seq<byte>, i: nat, j: nat)
    ensures Rounds(a, s, 0, -1, i, j) <==> i == j <= |s| || Rounds(a, s, 1, -1, i, j)
  {
    hide Iter;
    IterNone(a, s, i, j);
  }

  // ---- The emitted code matches what the pattern matches ----

  lemma {:induction false} OftenRun(p: Piece, s: seq<byte>, n: nat, i: nat, j: nat)
    requires p.Char? && WFSingle(p.x)
    ensures OftenL(p, s, n, i, j) <==> Run(p.x, s, i, j) && j - i == n
    decreases n
  {
    if n > 0 {
      if OftenL(p, s, n, i, j) {
        var m := OftenSplit(p, s, n, i, j);
        OftenRun(p, s, n - 1, m, j);
      }
      if Run(p.x, s, i, j) && j - i == n {
        OftenRun(p, s, n - 1, i + 1, j);
        assert OnceL(p, s, i, i + 1);
      }
    }
  }

  /** A character, type or class with its quantifier; one that the compiler makes
      possessive takes all that there is. */
  lemma CharMatches(p: Piece, next: PBranch, n: nat, s: seq<byte>, i: nat, j: nat)
    requires p.Char? && WFPiece(p) && CoveredPiece(p)
    ensures BranchL(CodePiece(p, next, n), s, i, j) <==>
            PieceL(p, s, i, j) && (!p.x.Set? && Possessify(p.x, p.q, next) ==> Full(p.x, -1, s, i, j))
  {
    hide BranchL, OftenL, CodeSingle, CodeClass, ItemL, AutoPossessive;
    CharL(p, s, i, j);
    if p.q.None? {
      OneItem(One(p.x), s, i, j);
      OneRun(p.x, s, i, j);
    } else if p.x.Set? {
      ClassRepeats(p.x, p.q.min, p.q.max, p.q.lazy, s, i, j);
    } else {
      SingleRepeats(p.x, p.q.min, p.q.max, p.q.lazy, p.q.possessive || Possessify(p.x, p.q, next), s, i, j);
    }
  }

  lemma CharL(p: Piece, s: seq<byte>, i: nat, j: nat)
    requires p.Char? && WFPiece(p)
    ensures PieceL(p, s, i, j) <==> Run(p.x, s, i, j) && Times(p.q, j - i) && (Keeps(p.q) ==> Full(p.x, p.q.max, s, i, j))
  {
    hide OftenL, Hit;
    forall k: nat ensures OftenL(p, s, k, i, j) <==> Run(p.x, s, i, j) && j - i == k { OftenRun(p, s, k, i, j); }
    if Run(p.x, s, i, j) && Times(p.q, j - i) {
      var k: nat := j - i;
      assert OftenL(p, s, k, i, j);
    }
  }

  lemma OneRun(x: Single, s: seq<byte>, i: nat, j: nat)
    ensures ItemL(One(x), s, i, j) <==> Run(x, s, i, j) && j - i == 1
  {}

  lemma {:induction false} GroupOften(p: Piece, a: Alts, s: seq<byte>, n: nat, i: nat, j: nat, sound: bool)
    requires p.Group?
    requires forall u: nat, v: nat :: AltsL(a, s, u, v) ==> PAltsL(p.alts, s, u, v)
    requires sound || forall u: nat, v: nat :: PAltsL(p.alts, s, u, v) ==> AltsL(a, s, u, v)
    ensures Iter(a, s, n, i, j) ==> OftenL(p, s, n, i, j)
    ensures sound || (OftenL(p, s, n, i, j) ==> Iter(a, s, n, i, j))
    decreases n
  {
    hide AltsL, Iter, PAltsL;
    if n == 0 {
      IterNone(a, s, i, j);
    } else {
      if !sound && OftenL(p, s, n, i, j) {
        var m := OftenSplit(p, s, n, i, j);
        GroupOften(p, a, s, n - 1, m, j, sound);
        IterMore(a, s, n - 1, i, m, j);
      }
      if Iter(a, s, n, i, j) {
        var m := IterSplit(a, s, n, i, j);
        GroupOften(p, a, s, n - 1, m, j, sound);
        assert OnceL(p, s, i, m);
      }
    }
  }

  /** What stops a repeat of `x`: an item of the branch that must be there and
      cannot begin with a byte that the repeat could have taken. */
  ghost predicate Stops(x: Single, b: Branch) {
    && b.Cons? && (b.hd.One? || (b.hd.Rep? && Min(b.hd.kind) > 0))
    && WFSingle(x) && WFSingle(b.hd.x) && Disjoint(x, b.hd.x)
  }

  /** The code of the item that makes a repeat possessive does stop it, if that
      item must be there. */
  lemma NextStops(x: Single, next: PBranch, n: nat)
    requires WFSingle(x) && WFPBranch(next) && CoveredBranch(next) && AutoPossessive(x, next) && !LeftOut(next)
    ensures Stops(x, CodeBranch(next, n))
  {
    var p := next.hd;
    AutoDisjoint(x, p.x);
    var b := CodePiece(p, next.tl, n);
    assert b.Cons? && (b.hd.One? || (b.hd.Rep? && Min(b.hd.kind) > 0)) && b.hd.x == p.x;
    assert CodeBranch(next, n).hd == b.hd;
  }

  /** What follows a repeat that is stopped begins with a byte that the repeat
      could not take. */
  lemma StoppedHere(x: Single, b: Branch, s: seq<byte>, i: nat, j: nat)
    requires Stops(x, b) && BranchL(b, s, i, j)
    ensures i < |s| && !Hit(x, s[i])
  {
    var m := Uncons(b, s, i, j);
  }

  // ---- The text that the compiler looks at ----

  /** No repeat is made possessive before an item that may be left out: where the
      minimum of such an item is zero, this is written *, ? or {0, in the text,
      which is what check_auto_possessive() looks for. */
  predicate SpelledPiece(p: Piece, next: PBranch)
    decreases p, 1
  {
    match p
    case Char(x, q) => !x.Set? && Possessify(x, q, next) ==> !LeftOut(next)
    case Place(_) => true
    case Group(_, alts, _) => SpelledAlts(alts)
  }

  predicate SpelledBranch(b: PBranch)
    decreases b, 0
  {
    b.Then? ==> SpelledPiece(b.hd, b.tl) && SpelledBranch(b.tl)
  }

  predicate SpelledAlts(a: PAlts)
    decreases a, 0
  {
    SpelledBranch(a.b) && (a.Or? ==> SpelledAlts(a.rest))
  }

  // ---- The emitted code matches what the pattern matches ----

  /** Code matches only what the pattern matches; `sound` asks for no more. */
  ghost predicate Agree(code: bool, pattern: bool, sound: bool) {
    (code ==> pattern) && (sound || (pattern ==> code))
  }

  lemma {:induction false} PieceMatches(p: Piece, next: PBranch, n: nat, s: seq<byte>, i: nat, j: nat, sound: bool)
    requires WFPiece(p) && CoveredPiece(p) && (sound || SpelledPiece(p, next))
    ensures Agree(BranchL(CodePiece(p, next, n), s, i, j),
                  PieceL(p, s, i, j) && (p.Char? && !p.x.Set? && Possessify(p.x, p.q, next) ==> Full(p.x, -1, s, i, j)), sound)
    decreases p, 1
  {
    hide BranchL, AltsL, ItemL, PAltsL, Iter, CodeGroup, AutoPossessive, LeftOut;
    match p
    case Char(_, _) => CharMatches(p, next, n, s, i, j);
    case Place(op) =>
      OneItem(Zero(op), s, i, j);
      ZeroPlace(op, s, i, j);
    case Group(capturing, alts, q) =>
      var n' := if capturing then n + 1 else n;
      var a := CodeAlts(alts, n');
      forall u: nat, v: nat ensures Agree(AltsL(a, s, u, v), PAltsL(alts, s, u, v), sound) { AltsAgree(alts, n', s, u, v, sound); }
      GroupRepeats(Bra(if capturing then n + 1 else 0, a, Once), q, s, i, j);
      forall k: nat ensures Agree(Iter(a, s, k, i, j), OftenL(p, s, k, i, j), sound) { GroupOften(p, a, s, k, i, j, sound); }
  }

  lemma ZeroPlace(op: int, s: seq<byte>, i: nat, j: nat)
    ensures ItemL(Zero(op), s, i, j) <==> PieceL(Place(op), s, i, j)
  {}

  lemma {:induction false} BranchAgree(b: PBranch, n: nat, s: seq<byte>, i: nat, j: nat, sound: bool)
    requires WFPBranch(b) && CoveredBranch(b) && (sound || SpelledBranch(b))
    ensures Agree(BranchL(CodeBranch(b, n), s, i, j), PBranchL(b, s, i, j), sound)
    decreases b, 0
  {
    hide BranchL, PieceL, CodePiece, AutoPossessive, Stops, WFPiece, CoveredPiece, LeftOut;
    match b
    case End => NilL(s, i, j);
    case Then(hd, tl) =>
      var n' := n + Captures(hd);
      AppendL(CodePiece(hd, tl, n), CodeBranch(tl, n'), s, i, j);
      if BranchL(CodeBranch(b, n), s, i, j) {
        var m: nat :| BranchL(CodePiece(hd, tl, n), s, i, m) && BranchL(CodeBranch(tl, n'), s, m, j);
        PieceMatches(hd, tl, n, s, i, m, sound);
        BranchAgree(tl, n', s, m, j, sound);
        BranchRange(CodePiece(hd, tl, n), s, i, m);
        BranchRange(CodeBranch(tl, n'), s, m, j);
      }
      if !sound && PBranchL(b, s, i, j) {
        var m := PUncons(b, s, i, j);
        PieceMatches(hd, tl, n, s, i, m, sound);
        BranchAgree(tl, n', s, m, j, sound);
        if hd.Char? && !hd.x.Set? && Possessify(hd.x, hd.q, tl) { HeldBack(hd, tl, n', s, m, j); }
      }
  }

  /** A repeat that was made possessive could not have taken more. */
  lemma HeldBack(p: Piece, next: PBranch, n: nat, s: seq<byte>, m: nat, j: nat)
    requires p.Char? && WFPiece(p) && !p.x.Set? && Possessify(p.x, p.q, next) && SpelledPiece(p, next)
    requires WFPBranch(next) && CoveredBranch(next) && BranchL(CodeBranch(next, n), s, m, j)
    ensures WFSingle(p.x) && forall i :: Full(p.x, -1, s, i, m)
  {
    hide BranchL, CodeBranch, AutoPossessive, Stops;
    NextStops(p.x, next, n);
    StoppedHere(p.x, CodeBranch(next, n), s, m, j);
  }

  lemma {:induction false} AltsAgree(a: PAlts, n: nat, s: seq<byte>, i: nat, j: nat, sound: bool)
    requires WFPAlts(a) && CoveredAlts(a) && (sound || SpelledAlts(a))
    ensures Agree(AltsL(CodeAlts(a, n), s, i, j), PAltsL(a, s, i, j), sound)
    decreases a, 0
  {
    hide BranchL, PBranchL, CodeBranch, SpelledBranch;
    AltsSplit(CodeAlts(a, n), s, i, j);
    BranchAgree(a.b, n, s, i, j, sound);
    if a.Or? {
      AltsAgree(a.rest, n + BranchCaptures(a.b), s, i, j, sound);
    }
  }

  /** The emitted code matches nothing but what the pattern matches. */
  lemma CodeSound(a: PAlts, n: nat, s: seq<byte>, i: nat, j: nat)
    requires WFPAlts(a) && CoveredAlts(a) && AltsL(CodeAlts(a, n), s, i, j)
    ensures PAltsL(a, s, i, j)
  {
    hide AltsL, PAltsL, CodeAlts;
    AltsAgree(a, n, s, i, j, true);
  }

  /** Compilation preserves meaning: the tree emitted for a pattern matches
      exactly the stretches that the pattern matches. */
  lemma AltsMatch(a: PAlts, n: nat, s: seq<byte>, i: nat, j: nat)
    requires WFPAlts(a) && CoveredAlts(a) && SpelledAlts(a)
    ensures AltsL(CodeAlts(a, n), s, i, j) <==> PAltsL(a, s, i, j)
  {
    hide AltsL, PAltsL, CodeAlts;
    AltsAgree(a, n, s, i, j, false);
  }

  // ---- The emitted code is well formed ----

  lemma {:induction false} AppendShaped(a: Branch, b: Branch)
    ensures ShapedBranch(Append(a, b)) <==> ShapedBranch(a) && ShapedBranch(b)
    ensures WFBranch(Append(a, b)) <==> WFBranch(a) && WFBranch(b)
    decreases a
  {
    hide WFItem, ShapedItem;
    if a.Cons? { AppendShaped(a.tl, b); }
  }

  lemma {:induction false} CopiesShaped(g: Item, n: nat, rest: Branch)
    ensures ShapedItem(g) && ShapedBranch(rest) ==> ShapedBranch(Copies(g, n, rest))
    ensures WFItem(g) && WFBranch(rest) ==> WFBranch(Copies(g, n, rest))
    decreases n
  {
    hide WFItem, ShapedItem;
    if n > 0 { CopiesShaped(g, n - 1, rest); }
  }

  lemma {:induction false} NestedShaped(g: Item, k: nat, lazy: bool)
    requires g.Bra? && g.ket.Once?
    ensures ShapedItem(g) ==> ShapedBranch(Nested(g, k, lazy))
    ensures WFItem(g) ==> WFBranch(Nested(g, k, lazy))
    decreases k
  {
    if k > 1 {
      NestedShaped(g, k - 1, lazy);
      var body := Cons(g, Nested(g, k - 1, lazy));
      assert ShapedItem(g) ==> ShapedAlts(Last(body));
      assert WFItem(g) ==> WFAlts(Last(body));
      var it := Bra(0, Last(body), Once);
      assert (ShapedItem(g) ==> ShapedItem(it)) && (WFItem(g) ==> WFItem(it));
    }
  }

  lemma WrappedShaped(b: Branch)
    requires ShapedBranch(b)
    ensures ShapedBranch(Wrapped(b))
  {
    assert ShapedAlts(Last(b));
    assert ShapedItem(Bra(0, Last(b), Atomic));
  }

  lemma LoopingShaped(g: Item, lazy: bool, possessive: bool)
    requires g.Bra? && g.ket.Once? && !(lazy && possessive)
    ensures var l := Looping(g, lazy, possessive);
            && (ShapedItem(g) ==> ShapedBranch(Cons(l, Nil)) && ShapedBranch(Cons(BraZero(lazy, l), Nil)))
            && (WFItem(g) && !possessive ==> WFBranch(Cons(l, Nil)) && WFBranch(Cons(BraZero(lazy, l), Nil)))
  {
    hide NullAlts, WFAlts, ShapedAlts;
  }

  lemma RepeatedShaped(g: Item, min: nat, max: int, lazy: bool, possessive: bool)
    requires g.Bra? && g.ket.Once? && (max == -1 || (0 < max && min <= max)) && !(lazy && possessive)
    ensures ShapedItem(g) ==> ShapedBranch(Repeated(g, min, max, lazy, possessive))
    ensures WFItem(g) && !possessive ==> WFBranch(Repeated(g, min, max, lazy, possessive))
  {
    hide WFItem, ShapedItem, WFBranch, ShapedBranch;
    LoopingShaped(g, lazy, possessive);
    if max == -1 {
      if min > 0 { CopiesShaped(g, min - 1, Cons(Looping(g, lazy, possessive), Nil)); }
    } else {
      NestedShaped(g, max - min, lazy);
      CopiesShaped(g, min, Nested(g, max - min, lazy));
    }
  }

  lemma GroupShaped(g: Item, q: Quant)
    requires g.Bra? && g.ket.Once? && WFQuant(q)
    ensures ShapedItem(g) ==> ShapedBranch(CodeGroup(g, q))
    ensures WFItem(g) && !Keeps(q) ==> WFBranch(CodeGroup(g, q))
  {
    hide WFItem, ShapedItem, Repeated;
    if q.Quant? {
      RepeatedShaped(g, q.min, q.max, q.lazy, q.possessive);
      if q.possessive && q.max != -1 {
        RepeatedShaped(g, q.min, q.max, false, false);
        if ShapedItem(g) { WrappedShaped(Repeated(g, q.min, q.max, false, false)); }
      }
    }
  }

  lemma PossessifyMax(x: Single, q: Quant, next: PBranch)
    ensures Possessify(x, q, next) ==> q.Quant? && q.max == -1
  {
    hide AutoPossessive;
  }

  lemma PairShaped(b: Branch)
    requires b.Cons? && (b.tl.Cons? ==> b.tl.tl.Nil?)
    ensures ShapedItem(b.hd) && (b.tl.Cons? ==> ShapedItem(b.tl.hd)) ==> ShapedBranch(b)
    ensures WFItem(b.hd) && (b.tl.Cons? ==> WFItem(b.tl.hd)) ==> WFBranch(b)
  {
    hide ShapedItem, WFItem;
    if b.tl.Cons? { assert ShapedItem(b.tl.hd) ==> ShapedBranch(b.tl); assert WFItem(b.tl.hd) ==> WFBranch(b.tl); }
  }

  /** Of one or two items, or these in atomic brackets. */
  lemma CharShaped(p: Piece, next: PBranch, n: nat)
    requires p.Char? && WFPiece(p)
    ensures ShapedBranch(CodePiece(p, next, n)) && (CoveredPiece(p) ==> WFBranch(CodePiece(p, next, n)))
  {
    hide Possessify;
    PossessifyMax(p.x, p.q, next);
    var b := CodePiece(p, next, n);
    var inner := if b.hd.Bra? then b.hd.alts.b else b;
    PairShaped(inner);
    if b.hd.Bra? { assert b == Wrapped(inner) && !CoveredPiece(p); }
    hide ShapedBranch, WFBranch;
    if b.hd.Bra? { WrappedShaped(inner); }
  }

  lemma {:induction false} PieceShaped(p: Piece, next: PBranch, n: nat)
    requires WFPiece(p)
    ensures ShapedBranch(CodePiece(p, next, n)) && (CoveredPiece(p) ==> WFBranch(CodePiece(p, next, n)))
    decreases p, 1
  {
    hide ShapedBranch, WFBranch, CodeBranch, AutoPossessive, CodeGroup;
    match p
    case Char(_, _) => CharShaped(p, next, n);
    case Place(op) => PlaceShaped(op);
    case Group(capturing, alts, q) =>
      var m := if capturing then n + 1 else n;
      AltsShaped(alts, m);
      GroupShaped(Bra(if capturing then n + 1 else 0, CodeAlts(alts, m), Once), q);
  }

  lemma PlaceShaped(op: int)
    requires IsZeroOp(op)
    ensures ShapedBranch(Cons(Zero(op), Nil)) && WFBranch(Cons(Zero(op), Nil))
  {}

  lemma {:induction false} BranchShaped(b: PBranch, n: nat)
    requires WFPBranch(b)
    ensures ShapedBranch(CodeBranch(b, n)) && (CoveredBranch(b) ==> WFBranch(CodeBranch(b, n)))
    decreases b, 0
  {
    hide CodePiece;
    if b.Then? {
      PieceShaped(b.hd, b.tl, n);
      BranchShaped(b.tl, n + Captures(b.hd));
      AppendShaped(CodePiece(b.hd, b.tl, n), CodeBranch(b.tl, n + Captures(b.hd)));
    }
  }

  /** Everything emitted is well formed, and covered by the matchers if the
      pattern is. */
  lemma {:induction false} AltsShaped(a: PAlts, n: nat)
    requires WFPAlts(a)
    ensures ShapedAlts(CodeAlts(a, n)) && (CoveredAlts(a) ==> WFAlts(CodeAlts(a, n)))
    decreases a, 0
  {
    hide CodeBranch, ShapedBranch, WFBranch, CoveredBranch;
    BranchShaped(a.b, n);
    if a.Or? { AltsShaped(a.rest, n + BranchCaptures(a.b)); }
  }
}
