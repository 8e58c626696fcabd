/** Where a call of match() stands: the branch still to be matched and the open
    groups around it. `Ready` collects what every call relies on; the languages
    `ReachS` and `ReachC` say which ends the call may and must find. */
module Kont {
  import opened Opcodes
  import opened Tree
  import opened Language

  /** The chain of remembered group starts (eptrb), newest first. */
  datatype Chain = Empty | Link(saved: nat, prev: Chain)

  /** The open groups, innermost first. A group at `gp` was entered at subject
      position `entry`; `first` is false when its own ket re-entered it; `rest`
      is what follows it in the enclosing branch. */
  datatype Kont =
    | Stop
    | In(bra: Item, gp: nat, entry: nat, first: bool, rest: Branch, k: Kont)

  predicate IsLoop(it: Item) { it.Bra? && it.ket.Again? }

  predicate IsMarked(it: Item) { IsLoop(it) && it.ket.marked }

  // ---- The open groups agree with the code ----

  ghost predicate WFKont(k: Kont) {
    k.In? ==> k.bra.Bra? && WFItem(k.bra) && WFBranch(k.rest) && WFKont(k.k)
  }

  /** `q` is where some branch of `a`, whose header is at `p`, ends. */
  predicate EndsBranch(p: nat, h: nat, a: Alts, q: nat)
    decreases a
  {
    q == p + h + BranchSize(a.b) ||
    (a.More? && EndsBranch(p + h + BranchSize(a.b), 1 + LINK_SIZE, a.rest, q))
  }

  ghost predicate KontAt(code: seq<int>, q: nat, k: Kont)
    requires WFKont(k)
    decreases k
  {
    match k
    case Stop => q < |code| && code[q] == OP_END
    case In(bra, gp, _, _, rest, k') =>
      ItemAt(code, gp, bra) && EndsBranch(gp, HeadSize(bra.cap), bra.alts, q) &&
      BranchAt(code, gp + ItemSize(bra), rest) &&
      KontAt(code, gp + ItemSize(bra) + BranchSize(rest), k')
  }

  /** Group starts never lie after the current position, nor after the start
      of a group inside. */
  predicate EntriesUpTo(k: Kont, i: nat) {
    k.In? ==> k.entry <= i && EntriesUpTo(k.k, k.entry)
  }

  // ---- Why matching ends ----

  /** An unmarked unlimited group has consumed something by the time its ket
      is reached; `empty` says that nothing need be consumed before that ket. */
  predicate Safe(empty: bool, k: Kont, i: nat) {
    k.In? ==>
      (empty && IsLoop(k.bra) && !IsMarked(k.bra) ==> k.entry < i) &&
      Safe(empty && NullBranch(k.rest), k.k, i)
  }

  /** A marked group that has consumed nothing finds its own start on top of
      the chain, which is never shorter than the nest of marked groups. */
  predicate Guarded(c: Chain, k: Kont, i: nat) {
    match k
    case Stop => true
    case In(bra, _, entry, _, _, k') =>
      if IsMarked(bra) then
        c.Link? && (entry == i ==> c.saved == i) && Guarded(c.prev, k', i)
      else Guarded(c, k', i)
  }

  predicate ChainUpTo(c: Chain, i: nat) {
    c.Link? ==> c.saved <= i && ChainUpTo(c.prev, i)
  }

  function StepsItem(it: Item): nat
    decreases it
  {
    match it
    case Bra(_, alts, _) => 2 + StepsAlts(alts)
    case BraZero(_, bra) => 1 + StepsItem(bra)
    case _ => 0
  }

  function StepsBranch(b: Branch): nat
    decreases b
  {
    match b
    case Nil => 0
    case Cons(hd, tl) => 1 + StepsItem(hd) + StepsBranch(tl)
  }

  function StepsAlts(a: Alts): nat
    decreases a
  {
    match a
    case Last(b) => StepsBranch(b)
    case More(b, rest) => StepsBranch(b) + StepsAlts(rest)
  }

  /** A bound on the moves left at position `i` before a byte is consumed. */
  function StepsKont(k: Kont, i: nat): nat {
    match k
    case Stop => 0
    case In(bra, _, entry, _, rest, k') =>
      1 + (if IsLoop(bra) && entry < i then 3 + StepsAlts(bra.alts) else 0)
      + StepsBranch(rest) + StepsKont(k', i)
  }

  function Steps(tail: Branch, k: Kont, i: nat): nat {
    StepsBranch(tail) + StepsKont(k, i)
  }

  /** What every call of match() relies on. */
  ghost predicate Ready(code: seq<int>, n: nat, tail: Branch, k: Kont, pc: nat, i: nat, c: Chain) {
    && i <= n
    && WFBranch(tail) && WFKont(k)
    && BranchAt(code, pc, tail) && KontAt(code, pc + BranchSize(tail), k)
    && EntriesUpTo(k, i) && ChainUpTo(c, i)
    && Safe(NullBranch(tail), k, i) && Guarded(c, k, i)
  }

  // ---- Which ends a call may report ----

  ghost predicate LoopS(bra: Item, s: seq<byte>, i: nat, j: nat) {
    if IsLoop(bra) then exists n: nat :: Iter(bra.alts, s, n, i, j) else i == j <= |s|
  }

  ghost predicate KontS(k: Kont, s: seq<byte>, i: nat, j: nat)
    decreases k, 0
  {
    match k
    case Stop => i == j <= |s|
    case In(bra, _, _, _, rest, k') =>
      exists m: nat :: LoopS(bra, s, i, m) && ReachS(rest, k', s, m, j)
  }

  /** From position `i`, `tail` and then the open groups can match up to `j`. */
  ghost predicate ReachS(tail: Branch, k: Kont, s: seq<byte>, i: nat, j: nat)
    decreases k, 1
  {
    exists m: nat :: BranchL(tail, s, i, m) && KontS(k, s, m, j)
  }

  // ---- Which ends a call must find ----

  /** Rounds that all consume something. */
  ghost predicate Rounds(a: Alts, s: seq<byte>, i: nat, j: nat)
    decreases j - i
  {
    i == j <= |s| ||
    exists m: nat :: i < m <= j && AltsL(a, s, i, m) && Rounds(a, s, m, j)
  }

  /** At the ket of a group entered at `entry`: leave, or go round again
      consuming something each time. A round that consumed nothing counts only
      if it was the first. */
  ghost predicate LoopC(k: Kont, s: seq<byte>, i: nat, j: nat)
    requires k.In?
  {
    if !IsLoop(k.bra) then i == j <= |s|
    else (k.entry < i && i <= j && Rounds(k.bra.alts, s, i, j)) || (k.entry == i == j <= |s| && k.first)
  }

  ghost predicate KontC(k: Kont, s: seq<byte>, i: nat, j: nat)
    decreases k, 0
  {
    match k
    case Stop => i == j <= |s|
    case In(_, _, _, _, rest, k') =>
      exists m: nat :: LoopC(k, s, i, m) && ReachC(rest, k', s, m, j)
  }

  ghost predicate ReachC(tail: Branch, k: Kont, s: seq<byte>, i: nat, j: nat)
    decreases k, 1
  {
    exists m: nat :: BranchL(tail, s, i, m) && KontC(k, s, m, j)
  }

  /** The ends to be found from a bracket that its own ket re-enters at `i`. */
  ghost predicate AgainC(bra: Item, gp: nat, rest: Branch, k: Kont, s: seq<byte>, i: nat, j: nat) {
    bra.Bra? && exists m: nat :: i < m && AltsL(bra.alts, s, i, m) && KontC(In(bra, gp, i, false, rest, k), s, m, j)
  }

  ghost predicate MustReach(first: bool, tail: Branch, pc: nat, k: Kont, s: seq<byte>, i: nat, j: nat) {
    if first then ReachC(tail, k, s, i, j)
    else tail.Cons? && AgainC(tail.hd, pc, tail.tl, k, s, i, j)
  }

  predicate Below(c: Chain, i: nat) {
    c.Link? ==> c.saved < i && Below(c.prev, i)
  }

  /** The chain shows no false start: on top it holds exactly the starts of the
      open marked groups that were freshly entered at `i`. */
  predicate NoFalseStart(c: Chain, k: Kont, i: nat) {
    match k
    case Stop => true
    case In(bra, _, entry, first, _, k') =>
      if !IsMarked(bra) then NoFalseStart(c, k', i)
      else if entry < i then Below(c, i)
      else first ==> c.Link? && c.saved == i && NoFalseStart(c.prev, k', i)
  }

  // ---- Basic facts ----

  lemma EntriesWeaken(k: Kont, i: nat, j: nat)
    requires EntriesUpTo(k, i) && i <= j
    ensures EntriesUpTo(k, j)
  {}

  lemma ChainWeaken(c: Chain, i: nat, j: nat)
    requires ChainUpTo(c, i) && i <= j
    ensures ChainUpTo(c, j) && (i < j ==> Below(c, j))
  {
    if c.Link? { ChainWeaken(c.prev, i, j); }
  }

  /** Once a byte has been consumed, no open group is still at its start. */
  lemma SafeLater(empty: bool, k: Kont, i: nat, j: nat)
    requires EntriesUpTo(k, i) && i < j
    ensures Safe(empty, k, j)
    decreases k
  {
    if k.In? { SafeLater(empty && NullBranch(k.rest), k.k, k.entry, j); }
  }

  lemma SafeWeaken(empty: bool, empty': bool, k: Kont, i: nat)
    requires Safe(empty, k, i) && (empty' ==> empty)
    ensures Safe(empty', k, i)
    decreases k
  {
    if k.In? { SafeWeaken(empty && NullBranch(k.rest), empty' && NullBranch(k.rest), k.k, i); }
  }

  lemma GuardedLater(c: Chain, k: Kont, i: nat, j: nat)
    requires Guarded(c, k, i) && EntriesUpTo(k, i) && i < j
    ensures Guarded(c, k, j)
    decreases k
  {
    if k.In? {
      var c' := if IsMarked(k.bra) then c.prev else c;
      EntriesWeaken(k.k, k.entry, i);
      GuardedLater(c', k.k, i, j);
    }
  }

  lemma ExactBelow(c: Chain, k: Kont, i: nat, j: nat)
    requires Below(c, j) && EntriesUpTo(k, i) && i < j
    ensures NoFalseStart(c, k, j)
    decreases k
  {
    if k.In? && !IsMarked(k.bra) {
      EntriesWeaken(k.k, k.entry, i);
      ExactBelow(c, k.k, i, j);
    }
  }

  /** Consuming at least one byte by matching the head of the tail. */
  lemma ReadyConsume(code: seq<int>, n: nat, tail: Branch, k: Kont, pc: nat, i: nat, c: Chain, j: nat)
    requires Ready(code, n, tail, k, pc, i, c) && tail.Cons? && i < j <= n
    ensures Ready(code, n, tail.tl, k, pc + ItemSize(tail.hd), j, c)
    ensures NoFalseStart(c, k, j)
  {
    hide KontAt, WFKont, ItemAt, WFItem, NullItem, Guarded, ChainUpTo, EntriesUpTo, Safe, NoFalseStart;
    EntriesWeaken(k, i, j);
    ChainWeaken(c, i, j);
    SafeLater(NullBranch(tail.tl), k, i, j);
    GuardedLater(c, k, i, j);
    ExactBelow(c, k, i, j);
  }

  /** On past the head after matching it from `i` to `j`. */
  lemma ReadyAfter(code: seq<int>, n: nat, tail: Branch, k: Kont, pc: nat, i: nat, c: Chain, j: nat)
    requires Ready(code, n, tail, k, pc, i, c) && tail.Cons? && i <= j <= n && (i == j ==> NullItem(tail.hd))
    ensures Ready(code, n, tail.tl, k, pc + ItemSize(tail.hd), j, c)
    ensures n - j < n - i || Steps(tail.tl, k, j) < Steps(tail, k, i)
    ensures NoFalseStart(c, k, i) ==> NoFalseStart(c, k, j)
  {
    hide Ready, NoFalseStart, NullItem;
    if i < j {
      ReadyConsume(code, n, tail, k, pc, i, c, j);
    } else {
      ReadySkip(code, n, tail, k, pc, i, c);
    }
  }

  /** Passing a head that may match nothing without moving. */
  lemma ReadySkip(code: seq<int>, n: nat, tail: Branch, k: Kont, pc: nat, i: nat, c: Chain)
    requires Ready(code, n, tail, k, pc, i, c) && tail.Cons? && NullItem(tail.hd)
    ensures Ready(code, n, tail.tl, k, pc + ItemSize(tail.hd), i, c)
    ensures Steps(tail.tl, k, i) < Steps(tail, k, i)
  {
    hide KontAt, Guarded, ChainUpTo, EntriesUpTo, WFKont, Safe, ItemAt, WFItem, StepsKont, NullItem;
    assert BranchAt(code, pc, tail);
  }

  // ---- Reading the code ----

  /** The opcode at which an item starts. */
  function HeadOp(it: Item): int {
    match it
    case One(x) => (match x case Chr(_) => OP_CHAR case Type(op) => op case Set(_) => OP_CLASS)
    case Zero(op) => op
    case Rep(x, k, lazy) =>
      if x.Set? then OP_CLASS else RepBase(x) + KindOffset(k) + (if k.Exact? then 0 else Bit(lazy))
    case Bra(cap, _, ket) => BraOp(cap, ket)
    case BraZero(lazy, bra) => ZeroOp(lazy, bra)
  }

  lemma ReadyBound(code: seq<int>, n: nat, tail: Branch, k: Kont, pc: nat, i: nat, c: Chain)
    requires Ready(code, n, tail, k, pc, i, c)
    ensures i <= n
  {}

  lemma ItemOp(code: seq<int>, pc: nat, it: Item)
    requires ItemAt(code, pc, it)
    ensures pc < |code| && code[pc] == HeadOp(it)
  {
    hide AltsAt, AltsSize, Get;
    if it.Rep? {
      assert RepAt(code, pc, it.x, it.kind, it.lazy);
    }
  }

  lemma ReadyHead(code: seq<int>, n: nat, tail: Branch, k: Kont, pc: nat, i: nat, c: Chain)
    requires Ready(code, n, tail, k, pc, i, c) && tail.Cons?
    ensures WFItem(tail.hd) && ItemAt(code, pc, tail.hd)
    ensures WFBranch(tail.tl) && BranchAt(code, pc + ItemSize(tail.hd), tail.tl)
    ensures WFKont(k) && KontAt(code, pc + ItemSize(tail.hd) + BranchSize(tail.tl), k)
  {
    hide KontAt, Guarded, ChainUpTo, EntriesUpTo, WFKont, Safe, ItemAt, WFItem;
  }

  /** The parts of a bracket. */
  lemma BraParts(code: seq<int>, p: nat, bra: Item)
    requires ItemAt(code, p, bra) && bra.Bra?
    ensures var q := p + AltsSize(HeadSize(bra.cap), bra.alts);
            && q + 3 == p + ItemSize(bra) <= |code|
            && code[p] == BraOp(bra.cap, bra.ket)
            && (bra.cap > 0 ==> Get(code, p + 1 + LINK_SIZE) == bra.cap)
            && AltsAt(code, p, HeadSize(bra.cap), bra.alts)
            && code[q] == KetOp(bra.ket) && Get(code, q + 1) == q - p
  {}

  /** The opcode at `pc` tells the head of the tail, or which end was reached. */
  lemma OpAt(code: seq<int>, n: nat, tail: Branch, k: Kont, pc: nat, i: nat, c: Chain)
    requires Ready(code, n, tail, k, pc, i, c)
    ensures pc < |code|
    ensures tail.Cons? ==> code[pc] == HeadOp(tail.hd) && WFItem(tail.hd) && ItemAt(code, pc, tail.hd)
    ensures tail.Nil? && k.Stop? ==> code[pc] == OP_END
    ensures tail.Nil? && k.In? ==> OP_ALT <= code[pc] <= OP_KETRMIN
  {
    hide Guarded, ChainUpTo, EntriesUpTo, Safe, ItemAt, HeadOp, AltsAt, AltsSize, EndsBranch, WFItem;
    if tail.Cons? {
      hide BranchAt, KontAt, WFKont, WFBranch;
      ReadyHead(code, n, tail, k, pc, i, c);
      ItemOp(code, pc, tail.hd);
    } else if k.In? {
      BraParts(code, k.gp, k.bra);
      BraOps(k.bra);
      EndStep(code, k.gp, HeadSize(k.bra.cap), k.bra.alts, pc);
    }
  }

  /** The opcode tells what kind of item comes next. */
  lemma HeadKinds(it: Item)
    requires WFItem(it)
    ensures var op := HeadOp(it);
            && op != OP_END && !(OP_ALT <= op <= OP_KETRMIN)
            && (it.BraZero? <==> op == OP_BRAZERO || op == OP_BRAMINZERO)
            && (it.Bra? <==> op == OP_BRA || op == OP_SBRA || op == OP_CBRA || op == OP_SCBRA)
            && (it.Zero? <==> IsZeroOp(op)) && (it.Zero? ==> op == it.op)
  {
    hide WFAlts, NullAlts;
  }

  /** The brackets and kets that the matchers cover. */
  lemma BraOps(it: Item)
    requires it.Bra? && WFItem(it)
    ensures OP_KET <= KetOp(it.ket) <= OP_KETRMIN && (KetOp(it.ket) == OP_KET <==> !IsLoop(it))
    ensures IsLoop(it) ==> (KetOp(it.ket) == OP_KETRMIN <==> it.ket.lazy)
    ensures BraOp(it.cap, it.ket) >= OP_SBRA <==> IsMarked(it)
    ensures var op := BraOp(it.cap, it.ket); (if it.cap > 0 then op == OP_CBRA || op == OP_SCBRA else op == OP_BRA || op == OP_SBRA)
  {
    hide WFAlts, NullAlts;
  }

  lemma HeadOpRange(it: Item)
    requires ShapedItem(it)
    ensures !(OP_CRSTAR <= HeadOp(it) <= OP_CRMINRANGE)
  {}

  /** No class repeat can follow an item by accident. */
  lemma AfterHead(code: seq<int>, n: nat, tail: Branch, k: Kont, pc: nat, i: nat, c: Chain)
    requires Ready(code, n, tail, k, pc, i, c) && tail.Cons?
    ensures var q := pc + ItemSize(tail.hd);
            q < |code| && !(OP_CRSTAR <= code[q] <= OP_CRMINRANGE)
  {
    hide Ready, ItemAt, HeadOp, WFItem, AltsAt, EndsBranch, AltsSize;
    ReadyHead(code, n, tail, k, pc, i, c);
    var q := pc + ItemSize(tail.hd);
    if tail.tl.Cons? {
      hide KontAt;
      ItemOp(code, q, tail.tl.hd);
      WFShaped(tail.tl.hd);
      HeadOpRange(tail.tl.hd);
    } else if k.In? {
      BraParts(code, k.gp, k.bra);
      EndStep(code, k.gp, HeadSize(k.bra.cap), k.bra.alts, q);
    }
  }

  /** From the end of a branch the ALT links lead to the ket. */
  lemma EndStep(code: seq<int>, p: nat, h: nat, a: Alts, q: nat)
    requires AltsAt(code, p, h, a) && EndsBranch(p, h, a, q)
    ensures q <= p + AltsSize(h, a)
    ensures q < p + AltsSize(h, a) ==>
              q + 2 < |code| && code[q] == OP_ALT && Get(code, q + 1) > 0 && EndsBranch(p, h, a, q + Get(code, q + 1))
    decreases a
  {
    hide BranchAt, BranchSize;
    if a.More? && q != p + h + BranchSize(a.b) {
      EndStep(code, p + h + BranchSize(a.b), 1 + LINK_SIZE, a.rest, q);
    }
  }

  /** `a'`, with header at `p'`, are the last branches of `a`. */
  predicate IsSuffix(p: nat, h: nat, a: Alts, p': nat, h': nat, a': Alts)
    decreases a
  {
    (p' == p && h' == h && a' == a) ||
    (a.More? && IsSuffix(p + h + BranchSize(a.b), 1 + LINK_SIZE, a.rest, p', h', a'))
  }

  lemma SuffixFacts(code: seq<int>, p: nat, h: nat, a: Alts, p': nat, h': nat, a': Alts)
    requires AltsAt(code, p, h, a) && IsSuffix(p, h, a, p', h', a') && WFAlts(a)
    ensures AltsAt(code, p', h', a') && WFAlts(a')
    ensures p' + AltsSize(h', a') == p + AltsSize(h, a)
    ensures EndsBranch(p, h, a, p' + h' + BranchSize(a'.b))
    ensures NullBranch(a'.b) ==> NullAlts(a)
    ensures StepsBranch(a'.b) <= StepsAlts(a)
    ensures a'.More? ==> IsSuffix(p, h, a, p' + h' + BranchSize(a'.b), 1 + LINK_SIZE, a'.rest)
    decreases a
  {
    if !(p' == p && h' == h && a' == a) {
      SuffixFacts(code, p + h + BranchSize(a.b), 1 + LINK_SIZE, a.rest, p', h', a');
    }
  }

  lemma SuffixSelf(p: nat, h: nat, a: Alts)
    ensures IsSuffix(p, h, a, p, h, a)
  {}

  /** The link in the header of a branch leads to the next one, or to the ket. */
  lemma HeaderStep(code: seq<int>, p: nat, h: nat, a: Alts)
    requires AltsAt(code, p, h, a) && p + AltsSize(h, a) < |code| && code[p + AltsSize(h, a)] != OP_ALT
    ensures p + 2 < |code|
    ensures var q := p + Get(code, p + 1);
            && 0 <= q < |code| && (code[q] == OP_ALT <==> a.More?) && (a.Last? ==> q == p + AltsSize(h, a))
            && (a.More? ==> AltsAt(code, q, 1 + LINK_SIZE, a.rest) && q + AltsSize(1 + LINK_SIZE, a.rest) == p + AltsSize(h, a))
  {
    hide BranchAt, BranchSize;
  }

  lemma SuffixNext(p0: nat, h0: nat, a0: Alts, code: seq<int>, p: nat, h: nat, a: Alts)
    requires AltsAt(code, p, h, a) && (a.More? ==> IsSuffix(p0, h0, a0, p + h + BranchSize(a.b), 1 + LINK_SIZE, a.rest))
    ensures p + 2 < |code|
    ensures a.More? ==> p + Get(code, p + 1) >= 0 && IsSuffix(p0, h0, a0, p + Get(code, p + 1), 1 + LINK_SIZE, a.rest)
  {
    hide BranchAt, BranchSize, IsSuffix;
  }

  /** The link in a branch header leads to the next header, or to the ket. */
  lemma SuffixMove(code: seq<int>, n: nat, tail: Branch, k: Kont, pc: nat, i: nat, c: Chain, p: nat, h: nat, a: Alts)
    requires Ready(code, n, tail, k, pc, i, c) && tail.Cons? && tail.hd.Bra?
    requires IsSuffix(pc, HeadSize(tail.hd.cap), tail.hd.alts, p, h, a)
    ensures p + 2 < |code|
    ensures var q := p + Get(code, p + 1);
            0 <= q < |code| && (code[q] == OP_ALT <==> a.More?) &&
            (a.More? ==> IsSuffix(pc, HeadSize(tail.hd.cap), tail.hd.alts, q, 1 + LINK_SIZE, a.rest))
  {
    hide Ready, ItemAt, IsSuffix, WFAlts, NullAlts, StepsAlts, EndsBranch, AltsAt, AltsSize, BranchSize, Get, HeadSize, WFItem;
    ReadyHead(code, n, tail, k, pc, i, c);
    WFBra(tail.hd);
    BraParts(code, pc, tail.hd);
    SuffixFacts(code, pc, HeadSize(tail.hd.cap), tail.hd.alts, p, h, a);
    HeaderStep(code, p, h, a);
    SuffixNext(pc, HeadSize(tail.hd.cap), tail.hd.alts, code, p, h, a);
  }

  // ---- Moves between calls ----

  /** The chain a branch of `bra` is matched with. */
  function Entered(bra: Item, c: Chain, i: nat): Chain {
    if IsMarked(bra) then Link(i, c) else c
  }

  lemma GuardedEnter(tail: Branch, k: Kont, gp: nat, i: nat, c: Chain, first: bool, n: nat)
    requires Guarded(c, k, i) && ChainUpTo(c, i) && tail.Cons? && tail.hd.Bra?
    ensures var k' := In(tail.hd, gp, i, first, tail.tl, k);
            var c' := Entered(tail.hd, c, i);
            Guarded(c', k', i) && ChainUpTo(c', i) &&
            ((first ==> NoFalseStart(c, k, i)) && (first || IsMarked(tail.hd)) ==> NoFalseStart(c', k', i))
  {}

  lemma SafeEnter(tail: Branch, k: Kont, gp: nat, i: nat, first: bool, empty: bool)
    requires Safe(NullBranch(tail), k, i) && tail.Cons? && tail.hd.Bra? && WFItem(tail.hd)
    requires empty ==> NullAlts(tail.hd.alts)
    ensures Safe(empty, In(tail.hd, gp, i, first, tail.tl, k), i)
  {
    assert NullAlts(tail.hd.alts) ==> NullItem(tail.hd);
    SafeWeaken(NullBranch(tail), empty && NullBranch(tail.tl), k, i);
  }

  lemma EnterFacts(code: seq<int>, n: nat, tail: Branch, k: Kont, pc: nat, i: nat, c: Chain, first: bool,
                   p: nat, h: nat, a: Alts)
    requires Ready(code, n, tail, k, pc, i, c) && tail.Cons? && tail.hd.Bra?
    requires IsSuffix(pc, HeadSize(tail.hd.cap), tail.hd.alts, p, h, a)
    ensures var k' := In(tail.hd, pc, i, first, tail.tl, k);
            WFBranch(a.b) && WFKont(k') && BranchAt(code, p + h, a.b) && KontAt(code, p + h + BranchSize(a.b), k') &&
            (NullBranch(a.b) ==> NullAlts(tail.hd.alts)) && StepsBranch(a.b) <= StepsAlts(tail.hd.alts)
  {
    hide Ready, Guarded, ChainUpTo, Safe, ItemAt, WFItem, IsSuffix, AltsSize, KontAt, WFKont, BranchAt, WFBranch, EndsBranch, WFAlts;
    ReadyHead(code, n, tail, k, pc, i, c);
    BraParts(code, pc, tail.hd);
    WFBra(tail.hd);
    SuffixFacts(code, pc, HeadSize(tail.hd.cap), tail.hd.alts, p, h, a);
    SuffixBranch(code, p, h, a);
    KontEnter(code, p + h + BranchSize(a.b), tail.hd, pc, i, first, tail.tl, k);
  }

  lemma SuffixBranch(code: seq<int>, p: nat, h: nat, a: Alts)
    requires AltsAt(code, p, h, a) && WFAlts(a)
    ensures BranchAt(code, p + h, a.b) && WFBranch(a.b)
  {
    hide BranchAt, WFBranch;
  }

  lemma KontEnter(code: seq<int>, q: nat, bra: Item, gp: nat, i: nat, first: bool, rest: Branch, k: Kont)
    requires bra.Bra? && WFItem(bra) && WFBranch(rest) && WFKont(k)
    requires ItemAt(code, gp, bra) && EndsBranch(gp, HeadSize(bra.cap), bra.alts, q)
    requires BranchAt(code, gp + ItemSize(bra), rest) && KontAt(code, gp + ItemSize(bra) + BranchSize(rest), k)
    ensures var k' := In(bra, gp, i, first, rest, k); WFKont(k') && KontAt(code, q, k')
  {
    hide ItemAt, ItemSize, BranchAt, BranchSize, WFItem, WFBranch, EndsBranch;
    assert WFKont(In(bra, gp, i, first, rest, k));
  }

  lemma WFBra(it: Item)
    requires WFItem(it) && it.Bra?
    ensures WFAlts(it.alts)
  {}

  /** From a bracket into one of its branches. */
  lemma ReadyEnter(code: seq<int>, n: nat, tail: Branch, k: Kont, pc: nat, i: nat, c: Chain, first: bool,
                   p: nat, h: nat, a: Alts)
    requires Ready(code, n, tail, k, pc, i, c) && tail.Cons? && tail.hd.Bra?
    requires IsSuffix(pc, HeadSize(tail.hd.cap), tail.hd.alts, p, h, a)
    ensures var k' := In(tail.hd, pc, i, first, tail.tl, k);
            Ready(code, n, a.b, k', p + h, i, Entered(tail.hd, c, i)) &&
            Steps(a.b, k', i) < Steps(tail, k, i)
    ensures var k' := In(tail.hd, pc, i, first, tail.tl, k);
            (first ==> NoFalseStart(c, k, i)) && (first || IsMarked(tail.hd)) ==> NoFalseStart(Entered(tail.hd, c, i), k', i)
  {
    hide Guarded, ChainUpTo, Safe, NoFalseStart, ItemAt, AltsAt, BranchAt, KontAt, WFKont, IsSuffix, WFItem, WFBranch, NullBranch;
    EnterFacts(code, n, tail, k, pc, i, c, first, p, h, a);
    ReadyHead(code, n, tail, k, pc, i, c);
    SafeEnter(tail, k, pc, i, first, NullBranch(a.b));
    GuardedEnter(tail, k, pc, i, c, first, n);
    assert StepsItem(tail.hd) == 2 + StepsAlts(tail.hd.alts);
  }

  /** What match() reads at the end of a branch. */
  lemma ReadyKet(code: seq<int>, n: nat, k: Kont, pc: nat, i: nat, c: Chain)
    requires Ready(code, n, Nil, k, pc, i, c) && k.In?
    ensures k.bra.Bra? && WFItem(k.bra) && ItemAt(code, k.gp, k.bra) && k.entry <= i <= n
    ensures EndsBranch(k.gp, HeadSize(k.bra.cap), k.bra.alts, pc)
    ensures var q := k.gp + AltsSize(HeadSize(k.bra.cap), k.bra.alts);
            q + 2 < |code| && code[q] == KetOp(k.bra.ket) && Get(code, q + 1) == q - k.gp
    ensures code[k.gp] == BraOp(k.bra.cap, k.bra.ket)
    ensures k.bra.cap > 0 ==> Get(code, k.gp + 1 + LINK_SIZE) == k.bra.cap
    ensures IsMarked(k.bra) ==> c.Link?
    ensures IsLoop(k.bra) && k.entry == i ==> IsMarked(k.bra) && c.saved == i
    ensures IsMarked(k.bra) && k.entry < i && NoFalseStart(c, k, i) ==> c.saved < i
  {
    BraParts(code, k.gp, k.bra);
  }

  /** Leaving a group at its ket. */
  lemma ReadyLeave(code: seq<int>, n: nat, k: Kont, pc: nat, i: nat, c: Chain)
    requires Ready(code, n, Nil, k, pc, i, c) && k.In?
    ensures IsMarked(k.bra) ==> c.Link?
    ensures var c' := if IsMarked(k.bra) then c.prev else c;
            Ready(code, n, k.rest, k.k, k.gp + ItemSize(k.bra), i, c') &&
            Steps(k.rest, k.k, i) < Steps(Nil, k, i)
    ensures var c' := if IsMarked(k.bra) then c.prev else c;
            NoFalseStart(c, k, i) && (k.first || k.entry < i || !IsMarked(k.bra)) ==> NoFalseStart(c', k.k, i)
  {
    hide ItemAt, BranchAt, EndsBranch, WFItem, AltsAt, AltsSize;
    EntriesWeaken(k.k, k.entry, i);
    if IsMarked(k.bra) && k.entry < i && NoFalseStart(c, k, i) {
      ExactBelow(c.prev, k.k, k.entry, i);
    }
  }

  lemma GuardedPush(c: Chain, k: Kont, e: nat, i: nat, x: nat)
    requires Guarded(c, k, i) && EntriesUpTo(k, e) && e < i
    ensures Guarded(Link(x, c), k, i)
    decreases k
  {
    if k.In? {
      if IsMarked(k.bra) {
        GuardedPush(c.prev, k.k, k.entry, i, c.saved);
      } else {
        GuardedPush(c, k.k, k.entry, i, x);
      }
    }
  }

  /** Going round again: back to the bracket from its own ket. */
  lemma ReadyAgain(code: seq<int>, n: nat, k: Kont, pc: nat, i: nat, c: Chain)
    requires Ready(code, n, Nil, k, pc, i, c) && k.In? && IsLoop(k.bra) && k.entry < i
    ensures IsMarked(k.bra) ==> c.Link?
    ensures var c' := if IsMarked(k.bra) then Link(i, c.prev) else c;
            Ready(code, n, Cons(k.bra, k.rest), k.k, k.gp, i, c') &&
            Steps(Cons(k.bra, k.rest), k.k, i) < Steps(Nil, k, i)
    ensures NoFalseStart(c, k, i) && !IsMarked(k.bra) ==> NoFalseStart(c, k.k, i)
  {
    hide ItemAt, EndsBranch, WFItem, AltsAt, AltsSize;
    EntriesWeaken(k.k, k.entry, i);
    SafeLater(NullBranch(Cons(k.bra, k.rest)), k.k, k.entry, i);
    assert StepsItem(k.bra) == 2 + StepsAlts(k.bra.alts);
    if IsMarked(k.bra) {
      GuardedPush(c.prev, k.k, k.entry, i, i);
    }
  }

  lemma BraZeroParts(code: seq<int>, pc: nat, it: Item, tl: Branch)
    requires it.BraZero? && ItemAt(code, pc, it) && WFItem(it)
    requires WFBranch(tl) && BranchAt(code, pc + ItemSize(it), tl)
    ensures it.bra.Bra? && NullItem(it) && ItemAt(code, pc + 1, it.bra)
    ensures WFBranch(Cons(it.bra, tl)) && BranchAt(code, pc + 1, Cons(it.bra, tl))
    ensures 1 + BranchSize(Cons(it.bra, tl)) == ItemSize(it) + BranchSize(tl)
    ensures StepsItem(it) == 1 + StepsItem(it.bra) && ZeroOp(it.lazy, it.bra) == OP_BRAZERO + Bit(it.lazy)
  {
    hide AltsAt, AltsSize, WFAlts, NullAlts, StepsAlts;
  }

  /** A zero-repeat prefix: on to the group, or on past it. */
  lemma BraZeroReady(code: seq<int>, n: nat, tail: Branch, k: Kont, pc: nat, i: nat, c: Chain)
    requires Ready(code, n, tail, k, pc, i, c) && tail.Cons? && tail.hd.BraZero?
    ensures ItemAt(code, pc + 1, tail.hd.bra) && tail.hd.bra.Bra? && ItemSize(tail.hd) == 1 + ItemSize(tail.hd.bra)
    ensures ZeroOp(tail.hd.lazy, tail.hd.bra) == OP_BRAZERO + Bit(tail.hd.lazy)
    ensures Ready(code, n, Cons(tail.hd.bra, tail.tl), k, pc + 1, i, c)
    ensures Ready(code, n, tail.tl, k, pc + ItemSize(tail.hd), i, c)
    ensures Steps(Cons(tail.hd.bra, tail.tl), k, i) < Steps(tail, k, i)
    ensures Steps(tail.tl, k, i) < Steps(tail, k, i)
  {
    hide KontAt, Guarded, ChainUpTo, EntriesUpTo, WFKont, Safe, AltsAt, ItemAt, WFItem, NullItem, BranchAt, WFBranch;
    ReadyHead(code, n, tail, k, pc, i, c);
    BraZeroParts(code, pc, tail.hd, tail.tl);
    ReadySkip(code, n, tail, k, pc, i, c);
    SafeWeaken(NullBranch(tail), NullBranch(Cons(tail.hd.bra, tail.tl)), k, i);
  }
}
