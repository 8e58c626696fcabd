/** The paths of DFA states through compiled code are its matches. */
module Paths {
  import opened Opcodes
  import opened Tree
  import opened Language
  import opened Kont
  import opened Nfa

  /** No class repeat starts at `q`. */
  predicate Plain(code: seq<int>, q: nat) {
    q < |code| && !(OP_CRSTAR <= code[q] <= OP_CRMINRANGE)
  }

  lemma PlainItem(code: seq<int>, q: nat, it: Item)
    requires WFItem(it) && ItemAt(code, q, it)
    ensures Plain(code, q)
  {
    hide ItemAt, HeadOp, WFItem;
    ItemOp(code, q, it);
    WFShaped(it);
    HeadOpRange(it);
  }

  // ---- Repeats of one byte ----

  predicate CountFits(u: Unit, c: nat) {
    if !u.repeat then c == 0
    else match u.kind
      case Star => c == 0
      case Plus => true
      case Query => c == 0
      case Upto(n) => c < n
      case Exact(n) => c < n
      case Range(lo, hi) => hi == 0 || (c < hi && lo <= hi)
      case PosStar => c == 0
      case PosPlus => true
      case PosQuery => c == 0
      case PosUpto(n) => c < n
  }

  predicate Total(u: Unit, n: int) {
    if u.repeat then Allowed(u.kind, n) else n == 1
  }

  /** A possessive repeat that has matched `c` bytes up to `m` cannot go on. */
  predicate Stuck(u: Unit, c: int, s: seq<byte>, m: nat)
    requires WFSingle(u.x)
  {
    Holds(u) ==> c == Max(u.kind) || m >= |s| || !Hit(u.x, s[m])
  }

  /** Leaving at once is possible exactly when the count so far is allowed and
      the repeat, if it is possessive, cannot go on. */
  lemma UnitSteps(u: Unit, st: State, s: seq<byte>, i: nat)
    requires CountFits(u, st.count) && WFSingle(u.x)
    ensures var here := UnitHere(u, st, i < |s| && Hit(u.x, s[i])); var exit := State(st.offset + u.size, 0);
            (exit in here <==> Total(u, st.count) && Stuck(u, st.count, s, i)) && forall y :: y in here ==> y == exit
    ensures UnitNext(u, st) == State(st.offset + u.size, 0) ||
            (UnitNext(u, st).offset == st.offset && CountFits(u, UnitNext(u, st).count))
  {
    hide Hit;
  }

  /** What remains to be matched after one more byte. */
  lemma UnitMore(u: Unit, st: State, t: nat, s: seq<byte>, m: nat)
    requires CountFits(u, st.count) && u.size > 0 && WFSingle(u.x)
    ensures var exit := State(st.offset + u.size, 0);
            Total(u, st.count + 1 + t) <==>
            if UnitNext(u, st) == exit then t == 0 else Total(u, UnitNext(u, st).count + t)
    ensures var exit := State(st.offset + u.size, 0);
            if UnitNext(u, st) == exit then Stuck(u, st.count + 1, s, m)
            else Stuck(u, st.count + 1 + t, s, m) <==> Stuck(u, UnitNext(u, st).count + t, s, m)
  {
    hide Hit;
  }

  /** From a repeat, on to what follows it. */
  lemma {:induction false} ReachUnit(code: seq<int>, s: seq<byte>, e: nat, st: State, i: nat, m: nat) returns (n: nat)
    requires IsUnitOp(Cell(code, st.offset)) && UnitAt(code, st.offset).size > 0
    requires var u := UnitAt(code, st.offset);
             CountFits(u, st.count) && Run(u.x, s, i, m) && Total(u, st.count + m - i) &&
             Stuck(u, st.count + m - i, s, m)
    ensures Path(code, s, e, n, Conf(st, i), Conf(State(st.offset + UnitAt(code, st.offset).size, 0), m))
    decreases m - i
  {
    hide UnitAt, UnitHere, UnitNext, CountFits, Total, Holds, Stuck;
    var u := UnitAt(code, st.offset);
    var exit := State(st.offset + u.size, 0);
    UnitSteps(u, st, s, i);
    if i == m {
      assert Step(code, s, e, Conf(st, i), Conf(exit, i));
      assert Path(code, s, e, 0, Conf(exit, i), Conf(exit, i));
      n := 1;
    } else {
      var next := UnitNext(u, st);
      assert Hit(u.x, s[i]);
      UnitMore(u, st, m - i - 1, s, m);
      assert OnNext(code, s, st, i) == [next];
      assert Step(code, s, e, Conf(st, i), Conf(next, i + 1));
      if next == exit {
        assert Path(code, s, e, 0, Conf(exit, i + 1), Conf(exit, m));
        n := 1;
      } else {
        assert next.offset == st.offset;
        var n' := ReachUnit(code, s, e, next, i + 1, m);
        n := n' + 1;
      }
    }
  }

  /** A path from a repeat to the end leaves it after an allowed number of bytes. */
  lemma {:induction false} LeaveUnit(code: seq<int>, s: seq<byte>, e: nat, n: nat, st: State, i: nat, end: Conf)
    returns (m: nat, n': nat)
    requires IsUnitOp(Cell(code, st.offset)) && UnitAt(code, st.offset).size > 0
    requires CountFits(UnitAt(code, st.offset), st.count) && i <= |s|
    requires Path(code, s, e, n, Conf(st, i), end) && end.st.offset != st.offset
    ensures var u := UnitAt(code, st.offset);
            Run(u.x, s, i, m) && Total(u, st.count + m - i) && Stuck(u, st.count + m - i, s, m) && n' < n &&
            Path(code, s, e, n', Conf(State(st.offset + u.size, 0), m), end)
    decreases n
  {
    hide UnitAt, UnitHere, UnitNext, CountFits, Total, Holds, Stuck;
    var u := UnitAt(code, st.offset);
    var exit := State(st.offset + u.size, 0);
    UnitSteps(u, st, s, i);
    var z :| Step(code, s, e, Conf(st, i), z) && Path(code, s, e, n - 1, z, end);
    if z.i == i && z.st in OnHere(code, s, e, st, i) {
      m, n' := i, n - 1;
    } else if z.st == exit {
      m, n' := i + 1, n - 1;
      UnitMore(u, st, 0, s, i + 1);
    } else {
      m, n' := LeaveUnit(code, s, e, n - 1, z.st, i + 1, end);
      UnitMore(u, st, m - (i + 1), s, m);
    }
  }

  // ---- Brackets ----

  /** The link in the header at `p` and what it leads to. */
  lemma HeaderLink(code: seq<int>, p: nat, h: nat, a: Alts)
    requires AltsAt(code, p, h, a) && p + AltsSize(h, a) < |code| && code[p + AltsSize(h, a)] != OP_ALT
    ensures var q := p + h + BranchSize(a.b);
            && Num(code, p + 1) == q - p > 0 && p < q < |code| && (Cell(code, q) == OP_ALT <==> a.More?)
            && (a.Last? ==> q == p + AltsSize(h, a))
            && (a.More? ==> AltsAt(code, q, 1 + LINK_SIZE, a.rest) &&
                            q + AltsSize(1 + LINK_SIZE, a.rest) == p + AltsSize(h, a))
  {
    hide BranchAt, BranchSize;
  }

  /** The branches of a bracket, as the links in the code show them. */
  lemma {:induction false} LinksShow(code: seq<int>, p: nat, h: nat, a: Alts)
    requires AltsAt(code, p, h, a) && p + AltsSize(h, a) < |code| && code[p + AltsSize(h, a)] != OP_ALT
    ensures KetFrom(code, p) == p + AltsSize(h, a)
    ensures BranchStarts(code, p, h) ==
            [State(p + h, 0)] + if a.More? then BranchStarts(code, p + h + BranchSize(a.b), 1 + LINK_SIZE) else []
    decreases a
  {
    hide AltsAt, BranchSize, AltsSize, Num, Cell;
    HeaderLink(code, p, h, a);
    if a.More? {
      LinksShow(code, p + h + BranchSize(a.b), 1 + LINK_SIZE, a.rest);
    }
  }

  /** The facts about a bracket at `p` that the paths below use. */
  lemma BraFacts(code: seq<int>, p: nat, bra: Item)
    requires bra.Bra? && WFItem(bra) && ItemAt(code, p, bra)
    ensures var h := HeadSize(bra.cap); var k := p + AltsSize(h, bra.alts);
            && WFAlts(bra.alts) && AltsAt(code, p, h, bra.alts) && k + 3 == p + ItemSize(bra) <= |code|
            && Plain(code, k) && code[k] != OP_ALT && OP_KET <= code[k] <= OP_KETRMIN && (code[k] == OP_KET <==> !IsLoop(bra)) && Num(code, k + 1) == k - p
            && code[p] == BraOp(bra.cap, bra.ket)
            && (if bra.cap > 0 then code[p] == OP_CBRA || code[p] == OP_SCBRA else code[p] == OP_BRA || code[p] == OP_SBRA)
  {
    hide ItemAt, AltsAt, AltsSize;
    BraParts(code, p, bra);
    BraOps(bra);
    WFBra(bra);
  }

  lemma EnterStep(code: seq<int>, s: seq<byte>, e: nat, p: nat, bra: Item, st: State, i: nat)
    requires bra.Bra? && WFItem(bra) && ItemAt(code, p, bra)
    ensures OnHere(code, s, e, State(p, 0), i) == BranchStarts(code, p, HeadSize(bra.cap))
    ensures OnNext(code, s, State(p, 0), i) == []
    ensures st in BranchStarts(code, p, HeadSize(bra.cap)) ==> Step(code, s, e, Conf(State(p, 0), i), Conf(st, i))
  {
    hide ItemAt, AltsAt, AltsSize, WFItem, WFAlts, BranchStarts, KetFrom, UnitAt, UnitHere, UnitNext, ZeroHolds, Plain;
    BraFacts(code, p, bra);
  }

  /** From the ket of an inner group: out of it, and round again if it repeats. */
  lemma KetStep(code: seq<int>, s: seq<byte>, e: nat, p: nat, bra: Item, i: nat)
    requires bra.Bra? && WFItem(bra) && ItemAt(code, p, bra) && p + ItemSize(bra) <= e
    ensures var k := State(p + AltsSize(HeadSize(bra.cap), bra.alts), 0);
            && OnHere(code, s, e, k, i) == [State(p + ItemSize(bra), 0)] + (if IsLoop(bra) then [State(p, 0)] else [])
            && OnNext(code, s, k, i) == []
            && Step(code, s, e, Conf(k, i), Conf(State(p + ItemSize(bra), 0), i))
            && (IsLoop(bra) ==> Step(code, s, e, Conf(k, i), Conf(State(p, 0), i)))
  {
    hide ItemAt, AltsAt, AltsSize, ItemSize, HeadSize, WFItem, WFAlts, BranchStarts, KetFrom, UnitAt, UnitHere, UnitNext, ZeroHolds, BraOp, Plain;
    BraFacts(code, p, bra);
  }

  lemma AltStep(code: seq<int>, s: seq<byte>, e: nat, q: nat, k: nat, i: nat)
    requires Cell(code, q) == OP_ALT && KetFrom(code, q) == k
    ensures OnHere(code, s, e, State(q, 0), i) == [State(k, 0)] && OnNext(code, s, State(q, 0), i) == []
    ensures Step(code, s, e, Conf(State(q, 0), i), Conf(State(k, 0), i))
  {
    hide KetFrom;
  }

  lemma ZeroFacts(code: seq<int>, s: seq<byte>, e: nat, p: nat, it: Item, i: nat)
    requires it.BraZero? && WFItem(it) && ItemAt(code, p, it)
    ensures it.bra.Bra? && WFItem(it.bra) && ItemAt(code, p + 1, it.bra) && ItemSize(it) == 1 + ItemSize(it.bra)
    ensures OnHere(code, s, e, State(p, 0), i) == [State(p + 1, 0), State(p + ItemSize(it), 0)]
    ensures OnNext(code, s, State(p, 0), i) == []
    ensures Step(code, s, e, Conf(State(p, 0), i), Conf(State(p + 1, 0), i))
    ensures Step(code, s, e, Conf(State(p, 0), i), Conf(State(p + ItemSize(it), 0), i))
  {
    hide AltsAt, AltsSize, WFAlts, KetFrom, BranchStarts, NullAlts;
    assert ItemAt(code, p + 1, it.bra) && WFItem(it.bra) && it.bra.Bra?;
    assert code[p] == OP_BRAZERO || code[p] == OP_BRAMINZERO;
    hide ItemAt, WFItem;
    BraFacts(code, p + 1, it.bra);
    LinksShow(code, p + 1, HeadSize(it.bra.cap), it.bra.alts);
  }

  // ---- Every match is a path ----

  lemma {:induction false} ReachItem(code: seq<int>, s: seq<byte>, e: nat, p: nat, it: Item, i: nat, m: nat) returns (n: nat)
    requires WFItem(it) && ItemAt(code, p, it) && p + ItemSize(it) <= e && Plain(code, p + ItemSize(it))
    requires ItemL(it, s, i, m)
    ensures Path(code, s, e, n, Conf(State(p, 0), i), Conf(State(p + ItemSize(it), 0), m))
    decreases it, 2
  {
    hide Path, AltsAt, BranchL, AltsL, KetFrom, BranchStarts, UnitAt, Plain;
    match it
    case Zero(op) =>
      PathOne(code, s, e, Conf(State(p, 0), i), Conf(State(p + 1, 0), m));
      n := 1;
    case BraZero(lazy, bra) =>
      n := ReachBraZero(code, s, e, p, it, i, m);
    case Bra(cap, alts, ket) =>
      n := ReachBra(code, s, e, p, it, i, m);
    case _ =>
      UnitAtItem(code, p, it) by { assert Plain(code, p + ItemSize(it)); PlainMeans(code, p + ItemSize(it)); }
      UnitL(it, s, i, m);
      n := ReachUnit(code, s, e, State(p, 0), i, m);
  }

  lemma UnitL(it: Item, s: seq<byte>, i: nat, m: nat)
    requires (it.One? || it.Rep?) && WFItem(it)
    ensures CountFits(ItemUnit(it), 0)
    ensures ItemL(it, s, i, m) <==> Run(it.x, s, i, m) && Total(ItemUnit(it), m - i) && Stuck(ItemUnit(it), m - i, s, m)
  {}

  lemma PlainMeans(code: seq<int>, q: nat)
    requires Plain(code, q)
    ensures q < |code| && !(OP_CRSTAR <= code[q] <= OP_CRMINRANGE)
  {}

  lemma {:induction false} ReachBraZero(code: seq<int>, s: seq<byte>, e: nat, p: nat, it: Item, i: nat, m: nat) returns (n: nat)
    requires it.BraZero? && WFItem(it) && ItemAt(code, p, it) && p + ItemSize(it) <= e && Plain(code, p + ItemSize(it))
    requires ItemL(it, s, i, m)
    ensures Path(code, s, e, n, Conf(State(p, 0), i), Conf(State(p + ItemSize(it), 0), m))
    decreases it, 1
  {
    hide Path, Step, OnHere, OnNext, ItemAt, ItemSize, WFItem, ItemL;
    BraZeroL(it, s, i, m);
    var x, z := Conf(State(p, 0), i), Conf(State(p + ItemSize(it), 0), m);
    ZeroFacts(code, s, e, p, it, i);
    if i == m {
      PathOne(code, s, e, x, z);
      n := 1;
    } else {
      var n' := ReachItem(code, s, e, p + 1, it.bra, i, m);
      PathCons(code, s, e, n', x, Conf(State(p + 1, 0), i), z);
      n := n' + 1;
    }
  }

  lemma {:induction false} ReachBranch(code: seq<int>, s: seq<byte>, e: nat, p: nat, b: Branch, i: nat, m: nat) returns (n: nat)
    requires WFBranch(b) && BranchAt(code, p, b) && p + BranchSize(b) <= e && Plain(code, p + BranchSize(b))
    requires BranchL(b, s, i, m)
    ensures Path(code, s, e, n, Conf(State(p, 0), i), Conf(State(p + BranchSize(b), 0), m))
    decreases b, 0
  {
    hide Path, Step, ItemAt, ItemSize, WFItem, ItemL, Plain;
    if b.Nil? {
      n := 0;
      PathSelf(code, s, e, Conf(State(p, 0), i));
    } else {
      var q := p + ItemSize(b.hd);
      if b.tl.Cons? { PlainItem(code, q, b.tl.hd); }
      var x := Uncons(b, s, i, m);
      var n1 := ReachItem(code, s, e, p, b.hd, i, x);
      var n2 := ReachBranch(code, s, e, q, b.tl, x, m);
      n := n1 + n2;
      PathJoin(code, s, e, n1, n2, Conf(State(p, 0), i), Conf(State(q, 0), x), Conf(State(p + BranchSize(b), 0), m));
    }
  }

  lemma AltsParts(code: seq<int>, p: nat, h: nat, a: Alts)
    requires WFAlts(a) && AltsAt(code, p, h, a) && Plain(code, p + AltsSize(h, a)) && code[p + AltsSize(h, a)] != OP_ALT
    ensures var q := p + h + BranchSize(a.b);
            && WFBranch(a.b) && BranchAt(code, p + h, a.b) && Plain(code, q)
            && (a.Last? ==> q == p + AltsSize(h, a))
            && (a.More? ==> code[q] == OP_ALT && WFAlts(a.rest) && AltsAt(code, q, 1 + LINK_SIZE, a.rest)
                            && q + AltsSize(1 + LINK_SIZE, a.rest) == p + AltsSize(h, a))
            && q <= p + AltsSize(h, a) < |code|
  {
    hide BranchAt, BranchSize, WFBranch;
  }

  /** Through some branch of `a` to the ket. */
  lemma {:induction false} ReachAlts(code: seq<int>, s: seq<byte>, e: nat, p: nat, h: nat, a: Alts, i: nat, m: nat)
    returns (st: State, n: nat)
    requires WFAlts(a) && AltsAt(code, p, h, a) && p + AltsSize(h, a) <= e
    requires Plain(code, p + AltsSize(h, a)) && code[p + AltsSize(h, a)] != OP_ALT
    requires AltsL(a, s, i, m)
    ensures st in BranchStarts(code, p, h)
    ensures Path(code, s, e, n, Conf(st, i), Conf(State(p + AltsSize(h, a), 0), m))
    decreases a, 0
  {
    hide Path, Step, BranchAt, BranchL, AltsL, AltsAt, Plain, KetFrom, BranchStarts, WFAlts, WFBranch;
    AltsParts(code, p, h, a);
    LinksShow(code, p, h, a);
    AltsSplit(a, s, i, m);
    var k := p + AltsSize(h, a);
    var q := p + h + BranchSize(a.b);
    if BranchL(a.b, s, i, m) {
      st := State(p + h, 0);
      n := ReachBranch(code, s, e, p + h, a.b, i, m);
      if a.More? {
        LinksShow(code, q, 1 + LINK_SIZE, a.rest);
        AltStep(code, s, e, q, k, m);
        PathOne(code, s, e, Conf(State(q, 0), m), Conf(State(k, 0), m));
        PathJoin(code, s, e, n, 1, Conf(st, i), Conf(State(q, 0), m), Conf(State(k, 0), m));
        n := n + 1;
      }
    } else {
      st, n := ReachAlts(code, s, e, q, 1 + LINK_SIZE, a.rest, i, m);
    }
  }

  /** From the bracket round its body to the ket, as often as asked. */
  lemma {:induction false} ReachIter(code: seq<int>, s: seq<byte>, e: nat, p: nat, bra: Item, r: nat, i: nat, m: nat) returns (n: nat)
    requires bra.Bra? && WFItem(bra) && ItemAt(code, p, bra) && p + ItemSize(bra) <= e
    requires r > 0 && Iter(bra.alts, s, r, i, m) && (r > 1 ==> IsLoop(bra))
    ensures Path(code, s, e, n, Conf(State(p, 0), i), Conf(State(p + AltsSize(HeadSize(bra.cap), bra.alts), 0), m))
    decreases bra, 0, r
  {
    hide Path, Step, ItemAt, AltsAt, AltsSize, OnHere, OnNext, WFItem, WFAlts, Iter, AltsL, BranchStarts, Plain;
    var x := IterSplit(bra.alts, s, r, i, m);
    BraFacts(code, p, bra);
    var h := HeadSize(bra.cap);
    var k := State(p + AltsSize(h, bra.alts), 0);
    var st, n1 := ReachAlts(code, s, e, p, h, bra.alts, i, x);
    EnterStep(code, s, e, p, bra, st, i);
    PathCons(code, s, e, n1, Conf(State(p, 0), i), Conf(st, i), Conf(k, x));
    n := n1 + 1;
    if r > 1 {
      var n2 := ReachIter(code, s, e, p, bra, r - 1, x, m);
      KetStep(code, s, e, p, bra, x);
      PathCons(code, s, e, n2, Conf(k, x), Conf(State(p, 0), x), Conf(k, m));
      PathJoin(code, s, e, n, n2 + 1, Conf(State(p, 0), i), Conf(k, x), Conf(k, m));
      n := n + n2 + 1;
    }
  }

  /** A bracket matches by one round, or by one or more if it repeats. */
  lemma BraRounds(it: Item, s: seq<byte>, i: nat, m: nat) returns (r: nat)
    requires it.Bra? && ItemL(it, s, i, m)
    ensures r > 0 && Iter(it.alts, s, r, i, m) && (r > 1 ==> IsLoop(it))
  {
    if IsLoop(it) {
      r :| r > 0 && Iter(it.alts, s, r, i, m);
    } else {
      assert Iter(it.alts, s, 0, m, m) by { AltsRange(it.alts, s, i, m); }
      r := 1;
    }
  }

  lemma {:induction false} ReachBra(code: seq<int>, s: seq<byte>, e: nat, p: nat, it: Item, i: nat, m: nat) returns (n: nat)
    requires it.Bra? && WFItem(it) && ItemAt(code, p, it) && p + ItemSize(it) <= e
    requires ItemL(it, s, i, m)
    ensures Path(code, s, e, n, Conf(State(p, 0), i), Conf(State(p + ItemSize(it), 0), m))
    decreases it, 1
  {
    hide Path, Step, ItemAt, AltsSize, OnHere, OnNext, WFItem, ItemL, Iter, ItemSize;
    var k := State(p + AltsSize(HeadSize(it.cap), it.alts), 0);
    var z := Conf(State(p + ItemSize(it), 0), m);
    var r := BraRounds(it, s, i, m);
    var n1 := ReachIter(code, s, e, p, it, r, i, m);
    KetStep(code, s, e, p, it, m);
    PathOne(code, s, e, Conf(k, m), z);
    PathJoin(code, s, e, n1, 1, Conf(State(p, 0), i), Conf(k, m), z);
    n := n1 + 1;
  }

  // ---- Every path is a match ----

  /** A path through an item towards a later `end` matches the item first. */
  lemma {:induction false} LeaveItem(code: seq<int>, s: seq<byte>, e: nat, n: nat, p: nat, it: Item, i: nat, end: Conf)
    returns (m: nat, n': nat)
    requires WFItem(it) && ItemAt(code, p, it) && p + ItemSize(it) <= e && Plain(code, p + ItemSize(it))
    requires i <= |s| && end.st.offset == e && Path(code, s, e, n, Conf(State(p, 0), i), end)
    ensures ItemL(it, s, i, m) && n' < n && Path(code, s, e, n', Conf(State(p + ItemSize(it), 0), m), end)
    decreases n, it, 2
  {
    hide Path, AltsAt, BranchL, AltsL, KetFrom, BranchStarts, UnitAt, Plain;
    match it
    case Zero(op) =>
      var z := FirstStep(code, s, e, n, Conf(State(p, 0), i), end);
      m, n' := i, n - 1;
    case BraZero(lazy, bra) =>
      m, n' := LeaveBraZero(code, s, e, n, p, it, i, end);
    case Bra(cap, alts, ket) =>
      m, n' := LeaveBra(code, s, e, n, p, it, i, end);
    case _ =>
      PlainMeans(code, p + ItemSize(it));
      UnitAtItem(code, p, it);
      assert CountFits(ItemUnit(it), 0);
      m, n' := LeaveUnit(code, s, e, n, State(p, 0), i, end);
      UnitL(it, s, i, m);
  }

  lemma FirstStep(code: seq<int>, s: seq<byte>, e: nat, n: nat, x: Conf, end: Conf) returns (z: Conf)
    requires Path(code, s, e, n, x, end) && x != end
    ensures n > 0 && Step(code, s, e, x, z) && Path(code, s, e, n - 1, z, end)
  {
    hide Step;
    z :| Step(code, s, e, x, z) && Path(code, s, e, n - 1, z, end);
  }

  lemma {:induction false} LeaveBraZero(code: seq<int>, s: seq<byte>, e: nat, n: nat, p: nat, it: Item, i: nat, end: Conf)
    returns (m: nat, n': nat)
    requires it.BraZero? && WFItem(it) && ItemAt(code, p, it) && p + ItemSize(it) <= e && Plain(code, p + ItemSize(it))
    requires i <= |s| && end.st.offset == e && Path(code, s, e, n, Conf(State(p, 0), i), end)
    ensures ItemL(it, s, i, m) && n' < n && Path(code, s, e, n', Conf(State(p + ItemSize(it), 0), m), end)
    decreases n, it, 1
  {
    hide Path, OnHere, OnNext, ItemAt, ItemSize, WFItem, ItemL;
    ZeroFacts(code, s, e, p, it, i);
    var z := FirstStep(code, s, e, n, Conf(State(p, 0), i), end);
    if z.st.offset == p + 1 {
      m, n' := LeaveItem(code, s, e, n - 1, p + 1, it.bra, i, end);
    } else {
      m, n' := i, n - 1;
    }
    BraZeroL(it, s, i, m);
  }

  lemma {:induction false} LeaveBranch(code: seq<int>, s: seq<byte>, e: nat, n: nat, p: nat, b: Branch, i: nat, end: Conf)
    returns (m: nat, n': nat)
    requires WFBranch(b) && BranchAt(code, p, b) && p + BranchSize(b) <= e && Plain(code, p + BranchSize(b))
    requires i <= |s| && end.st.offset == e && Path(code, s, e, n, Conf(State(p, 0), i), end)
    ensures BranchL(b, s, i, m) && n' <= n && Path(code, s, e, n', Conf(State(p + BranchSize(b), 0), m), end)
    decreases n, b, 0
  {
    hide Path, Step, ItemAt, ItemSize, WFItem, ItemL, Plain;
    if b.Nil? {
      m, n' := i, n;
    } else {
      var q := p + ItemSize(b.hd);
      if b.tl.Cons? { PlainItem(code, q, b.tl.hd); }
      var x, n1 := LeaveItem(code, s, e, n, p, b.hd, i, end);
      ItemRange(b.hd, s, i, x);
      m, n' := LeaveBranch(code, s, e, n1, q, b.tl, x, end);
    }
  }

  /** Which branch a state just inside a bracket belongs to, and where that
      branch ends. */
  lemma {:induction false} LeaveAlts(code: seq<int>, s: seq<byte>, e: nat, n: nat, p: nat, h: nat, a: Alts, st: State, i: nat, end: Conf)
    returns (m: nat, n': nat)
    requires WFAlts(a) && AltsAt(code, p, h, a) && p + AltsSize(h, a) <= e
    requires Plain(code, p + AltsSize(h, a)) && code[p + AltsSize(h, a)] != OP_ALT
    requires st in BranchStarts(code, p, h)
    requires i <= |s| && end.st.offset == e && Path(code, s, e, n, Conf(st, i), end)
    ensures AltsL(a, s, i, m) && n' <= n && Path(code, s, e, n', Conf(State(p + AltsSize(h, a), 0), m), end)
    decreases n, a, 0
  {
    hide Path, BranchAt, BranchL, AltsL, AltsAt, Plain, KetFrom, BranchStarts, WFAlts, WFBranch, OnHere, OnNext;
    AltsParts(code, p, h, a);
    LinksShow(code, p, h, a);
    var k := p + AltsSize(h, a);
    var q := p + h + BranchSize(a.b);
    if st == State(p + h, 0) {
      m, n' := LeaveBranch(code, s, e, n, p + h, a.b, i, end);
      AltsSplit(a, s, i, m);
      if a.More? {
        LinksShow(code, q, 1 + LINK_SIZE, a.rest);
        AltStep(code, s, e, q, k, m);
        var z := FirstStep(code, s, e, n', Conf(State(q, 0), m), end);
        n' := n' - 1;
      }
    } else {
      m, n' := LeaveAlts(code, s, e, n, q, 1 + LINK_SIZE, a.rest, st, i, end);
      AltsSplit(a, s, i, m);
    }
  }

  lemma {:induction false} LeaveBra(code: seq<int>, s: seq<byte>, e: nat, n: nat, p: nat, it: Item, i: nat, end: Conf)
    returns (m: nat, n': nat)
    requires it.Bra? && WFItem(it) && ItemAt(code, p, it) && p + ItemSize(it) <= e
    requires i <= |s| && end.st.offset == e && Path(code, s, e, n, Conf(State(p, 0), i), end)
    ensures ItemL(it, s, i, m) && n' < n && Path(code, s, e, n', Conf(State(p + ItemSize(it), 0), m), end)
    decreases n, it, 1
  {
    hide Path, ItemAt, AltsSize, AltsAt, OnHere, OnNext, WFItem, ItemL, Iter, AltsL, BranchStarts, Plain, ItemSize;
    BraFacts(code, p, it);
    var h := HeadSize(it.cap);
    var k := p + AltsSize(h, it.alts);
    EnterStep(code, s, e, p, it, State(p, 0), i);
    var z := FirstStep(code, s, e, n, Conf(State(p, 0), i), end);
    var x, n1 := LeaveAlts(code, s, e, n - 1, p, h, it.alts, z.st, i, end);
    AltsRange(it.alts, s, i, x);
    KetStep(code, s, e, p, it, x);
    var y := FirstStep(code, s, e, n1, Conf(State(k, 0), x), end);
    if y.st == State(p + ItemSize(it), 0) {
      m, n' := x, n1 - 1;
      OneRound(it, s, i, x);
    } else {
      m, n' := LeaveBra(code, s, e, n1 - 1, p, it, x, end);
      MoreRounds(it, s, i, x, m);
    }
  }

  lemma OneRound(it: Item, s: seq<byte>, i: nat, m: nat)
    requires it.Bra? && AltsL(it.alts, s, i, m) && i <= m <= |s|
    ensures ItemL(it, s, i, m)
  {
    if IsLoop(it) {
      assert Iter(it.alts, s, 0, m, m);
      assert Iter(it.alts, s, 1, i, m);
    }
  }

  lemma MoreRounds(it: Item, s: seq<byte>, i: nat, x: nat, m: nat)
    requires IsLoop(it) && AltsL(it.alts, s, i, x) && i <= x && ItemL(it, s, x, m)
    ensures ItemL(it, s, i, m)
  {
    var r: nat :| r > 0 && Iter(it.alts, s, r, x, m);
    assert Iter(it.alts, s, r + 1, i, m);
  }

  // ---- The whole pattern ----

  /** Some path leads from the opening bracket at `i` to the final ket at `j`. */
  ghost predicate Accepts(code: seq<int>, s: seq<byte>, e: nat, i: nat, j: nat) {
    exists n: nat :: Path(code, s, e, n, Conf(State(0, 0), i), Conf(State(e, 0), j))
  }

  /** A compiled pattern: one plain bracket, then the end marker. */
  ghost predicate Program(code: seq<int>, alts: Alts) {
    var root := Bra(0, alts, Once);
    WFItem(root) && ItemAt(code, 0, root) && ItemSize(root) < |code| && code[ItemSize(root)] == OP_END
  }

  /** The states reach the final ket exactly at the ends of matches. */
  lemma PathsAreMatches(code: seq<int>, alts: Alts, s: seq<byte>, i: nat, j: nat)
    requires Program(code, alts) && i <= |s|
    ensures Accepts(code, s, AltsSize(1 + LINK_SIZE, alts), i, j) <==> AltsL(alts, s, i, j)
  {
    hide Path, ItemAt, AltsAt, AltsSize, OnHere, OnNext, WFItem, AltsL, BranchStarts, Plain, ItemSize;
    var root := Bra(0, alts, Once);
    var e := AltsSize(1 + LINK_SIZE, alts);
    var start, end := Conf(State(0, 0), i), Conf(State(e, 0), j);
    BraFacts(code, 0, root);
    if AltsL(alts, s, i, j) {
      var st, n := ReachAlts(code, s, e, 0, 1 + LINK_SIZE, alts, i, j);
      EnterStep(code, s, e, 0, root, st, i);
      PathCons(code, s, e, n, start, Conf(st, i), end);
    }
    if Accepts(code, s, e, i, j) {
      var n: nat :| Path(code, s, e, n, start, end);
      EnterStep(code, s, e, 0, root, State(0, 0), i);
      var z := FirstStep(code, s, e, n, start, end);
      var m, n' := LeaveAlts(code, s, e, n - 1, 0, 1 + LINK_SIZE, alts, z.st, i, end);
      StaysAtEnd(code, s, e, n', Conf(State(e, 0), m), end);
    }
  }

  /** Nothing follows the final ket. */
  lemma StaysAtEnd(code: seq<int>, s: seq<byte>, e: nat, n: nat, x: Conf, y: Conf)
    requires OP_KET <= Cell(code, e) <= OP_KETRMIN && x.st.offset == e && Path(code, s, e, n, x, y)
    ensures x == y
  {}
}
