/** The scans of compiled code that the compiler relies on: could a branch match
    nothing, is its length fixed, must it start at the subject start or at a
    line start. Each scan is proved to compute a property of the tree, and the
    property is proved to hold of every match. */
module Scan {
  import opened Opcodes
  import opened Tree
  import opened Language
  import opened Kont
  import opened Layout

  // ---- What the scans compute ----

  /** The one length an item can have; -1 if it has none. */
  function FixedItem(it: Item): int {
    match it
    case One(_) => 1
    case Zero(_) => 0
    case Rep(_, kind, _) =>
      if kind.Exact? then kind.n else if kind.Range? && kind.lo == kind.hi then kind.lo else -1
    case Bra(_, alts, ket) => if ket.Once? || ket.Atomic? then FixedAlts(alts) else -1
    case BraZero(_, _) => -1
  }

  function FixedBranch(b: Branch): int {
    match b
    case Nil => 0
    case Cons(hd, tl) =>
      if FixedItem(hd) < 0 || FixedBranch(tl) < 0 then -1 else FixedItem(hd) + FixedBranch(tl)
  }

  function FixedAlts(a: Alts): int {
    match a
    case Last(b) => FixedBranch(b)
    case More(b, rest) => if FixedBranch(b) == FixedAlts(rest) then FixedBranch(b) else -1
  }

  /** Every branch starts with an anchor, or with a repeat of any byte at all. */
  predicate AnchoredBranch(b: Branch) {
    b.Cons? &&
    match b.hd
    case Zero(op) => op == OP_SOD || op == OP_CIRC
    case Rep(x, kind, _) => x == Type(OP_ALLANY) && (kind.Star? || kind.PosStar?)
    case Bra(_, alts, _) => AnchoredAlts(alts)
    case _ => false
  }

  predicate AnchoredAlts(a: Alts) {
    AnchoredBranch(a.b) && (a.More? ==> AnchoredAlts(a.rest))
  }

  /** Every branch starts with a circumflex, or with a repeat of any byte but newline. */
  predicate StartlineBranch(b: Branch) {
    b.Cons? &&
    match b.hd
    case Zero(op) => op == OP_CIRC || op == OP_CIRCM
    case Rep(x, kind, _) => x == Type(OP_ANY) && (kind.Star? || kind.PosStar?)
    case Bra(_, alts, _) => StartlineAlts(alts)
    case _ => false
  }

  predicate StartlineAlts(a: Alts) {
    StartlineBranch(a.b) && (a.More? ==> StartlineAlts(a.rest))
  }

  // ---- They hold of every match ----

  lemma {:induction false} NotNullItem(it: Item, s: seq<byte>, i: nat)
    requires WFItem(it) && ItemL(it, s, i, i)
    ensures NullItem(it)
    decreases it
  {
    hide AltsL, Iter;
    match it
    case Bra(_, alts, ket) =>
      BraL(it, s, i, i);
      if ket.Once? {
        NotNullAlts(alts, s, i);
      } else {
        var n: nat :| n > 0 && Iter(alts, s, n, i, i);
        var m := IterSplit(alts, s, n, i, i);
        NotNullAlts(alts, s, i);
      }
    case _ =>
  }

  lemma {:induction false} NotNullBranch(b: Branch, s: seq<byte>, i: nat)
    requires WFBranch(b) && BranchL(b, s, i, i)
    ensures NullBranch(b)
    decreases b
  {
    hide ItemL;
    if b.Cons? {
      var m := Uncons(b, s, i, i);
      NotNullItem(b.hd, s, i);
      NotNullBranch(b.tl, s, i);
    }
  }

  /** A group that the scan calls non-empty never matches the empty string. */
  lemma {:induction false} NotNullAlts(a: Alts, s: seq<byte>, i: nat)
    requires WFAlts(a) && AltsL(a, s, i, i)
    ensures NullAlts(a)
    decreases a
  {
    hide BranchL;
    AltsSplit(a, s, i, i);
    if BranchL(a.b, s, i, i) {
      NotNullBranch(a.b, s, i);
    } else {
      NotNullAlts(a.rest, s, i);
    }
  }

  lemma {:induction false} FixedItemLength(it: Item, s: seq<byte>, i: nat, j: nat)
    requires WFItem(it) && FixedItem(it) >= 0 && ItemL(it, s, i, j)
    ensures j == i + FixedItem(it)
    decreases it
  {
    hide AltsL, Iter;
    match it
    case Bra(_, alts, _) =>
      BraL(it, s, i, j);
      FixedAltsLength(alts, s, i, j);
    case _ =>
  }

  lemma {:induction false} FixedBranchLength(b: Branch, s: seq<byte>, i: nat, j: nat)
    requires WFBranch(b) && FixedBranch(b) >= 0 && BranchL(b, s, i, j)
    ensures j == i + FixedBranch(b)
    decreases b
  {
    hide ItemL;
    if b.Cons? {
      var m := Uncons(b, s, i, j);
      FixedItemLength(b.hd, s, i, m);
      FixedBranchLength(b.tl, s, m, j);
    }
  }

  /** Every match of every alternative consumes exactly the fixed length. */
  lemma {:induction false} FixedAltsLength(a: Alts, s: seq<byte>, i: nat, j: nat)
    requires WFAlts(a) && FixedAlts(a) >= 0 && AltsL(a, s, i, j)
    ensures j == i + FixedAlts(a)
    decreases a
  {
    hide BranchL;
    AltsSplit(a, s, i, j);
    if BranchL(a.b, s, i, j) {
      FixedBranchLength(a.b, s, i, j);
    } else {
      FixedAltsLength(a.rest, s, i, j);
    }
  }

  lemma {:induction false} AnchoredBranchEarlier(b: Branch, s: seq<byte>, i: nat, i': nat, j: nat)
    requires WFBranch(b) && AnchoredBranch(b) && BranchL(b, s, i, j) && i' <= i
    ensures BranchL(b, s, i', j)
    decreases b
  {
    hide BranchL, AltsL, Iter;
    var m := Uncons(b, s, i, j);
    BranchRange(b.tl, s, m, j);
    if b.hd.Bra? {
      var alts := b.hd.alts;
      BraL(b.hd, s, i, m);
      if b.hd.ket.Once? {
        AnchoredEarlier(alts, s, i, i', m);
      } else {
        var n: nat :| n > 0 && Iter(alts, s, n, i, m);
        var x := IterSplit(alts, s, n, i, m);
        AnchoredEarlier(alts, s, i, i', x);
        IterMore(alts, s, n - 1, i', x, m);
      }
      BraL(b.hd, s, i', m);
      ConsL(b, s, i', m, j);
    } else {
      AnyRunEarlier(b.hd, s, i, i', m);
      ConsL(b, s, i', m, j);
    }
  }

  lemma AnyRunEarlier(it: Item, s: seq<byte>, i: nat, i': nat, j: nat)
    requires ItemL(it, s, i, j) && i' <= i && !it.Bra? && AnchoredBranch(Cons(it, Nil))
    ensures ItemL(it, s, i', j)
  {}

  /** Anchoring is sound: whatever matches from some position also matches, up
      to the same end, from any earlier one. */
  lemma {:induction false} AnchoredEarlier(a: Alts, s: seq<byte>, i: nat, i': nat, j: nat)
    requires WFAlts(a) && AnchoredAlts(a) && AltsL(a, s, i, j) && i' <= i
    ensures AltsL(a, s, i', j)
    decreases a
  {
    hide BranchL, AnchoredBranch;
    AltsSplit(a, s, i, j);
    AltsSplit(a, s, i', j);
    if BranchL(a.b, s, i, j) {
      AnchoredBranchEarlier(a.b, s, i, i', j);
    } else {
      AnchoredEarlier(a.rest, s, i, i', j);
    }
  }

  lemma {:induction false} StartlineBranchEarlier(b: Branch, s: seq<byte>, i: nat, j: nat)
    requires WFBranch(b) && StartlineBranch(b) && BranchL(b, s, i, j) && i > 0 && s[i - 1] != CHAR_NL
    ensures BranchL(b, s, i - 1, j)
    decreases b
  {
    hide BranchL, AltsL, Iter;
    var m := Uncons(b, s, i, j);
    BranchRange(b.tl, s, m, j);
    if b.hd.Bra? {
      var alts := b.hd.alts;
      BraL(b.hd, s, i, m);
      if b.hd.ket.Once? {
        StartlineEarlier(alts, s, i, m);
      } else {
        var n: nat :| n > 0 && Iter(alts, s, n, i, m);
        var x := IterSplit(alts, s, n, i, m);
        StartlineEarlier(alts, s, i, x);
        IterMore(alts, s, n - 1, i - 1, x, m);
      }
      BraL(b.hd, s, i - 1, m);
      ConsL(b, s, i - 1, m, j);
    } else {
      LineRunEarlier(b.hd, s, i, m);
      ConsL(b, s, i - 1, m, j);
    }
  }

  lemma LineRunEarlier(it: Item, s: seq<byte>, i: nat, j: nat)
    requires ItemL(it, s, i, j) && i > 0 && s[i - 1] != CHAR_NL && !it.Bra? && StartlineBranch(Cons(it, Nil))
    ensures ItemL(it, s, i - 1, j)
  {}

  /** A match that starts in the middle of a line also matches, up to the same
      end, from one byte earlier: so the leftmost match starts a line. */
  lemma {:induction false} StartlineEarlier(a: Alts, s: seq<byte>, i: nat, j: nat)
    requires WFAlts(a) && StartlineAlts(a) && AltsL(a, s, i, j) && 0 < i <= |s| && s[i - 1] != CHAR_NL
    ensures AltsL(a, s, i - 1, j)
    decreases a
  {
    hide BranchL, StartlineBranch;
    AltsSplit(a, s, i, j);
    AltsSplit(a, s, i - 1, j);
    if BranchL(a.b, s, i, j) {
      StartlineBranchEarlier(a.b, s, i, j);
    } else {
      StartlineEarlier(a.rest, s, i, j);
    }
  }

  // ---- The scans themselves ----

  function HeaderLength(op: int): nat {
    if op == OP_CBRA || op == OP_SCBRA || op == OP_CBRAPOS || op == OP_SCBRAPOS then 3 + LINK_SIZE else 1 + LINK_SIZE
  }

  /** A branch ends at an ALT or at a ket. */
  predicate BranchEnd(code: seq<int>, q: nat) {
    q < |code| && OP_ALT <= code[q] <= OP_KETRPOS
  }

  /** Or, for a branch of a group still open, at a temporary end marker. */
  predicate BranchStop(code: seq<int>, q: nat) {
    BranchEnd(code, q) || (q < |code| && code[q] == OP_END)
  }

  predicate IsBra(op: int) {
    OP_BRA <= op <= OP_CBRAPOS || OP_SBRA <= op <= OP_SCBRAPOS || op == OP_ONCE
  }

  /** The prefixes of a group that may be left out. */
  predicate IsZero(op: int) {
    OP_BRAZERO <= op <= OP_BRAPOSZERO
  }

  /** A bracket marked as possibly matching nothing. */
  predicate IsSBra(op: int) {
    OP_SBRA <= op <= OP_SCBRAPOS
  }

  /** The header of the branches `a` of a group lies at `p`. */
  ghost predicate GroupAt(code: seq<int>, p: nat, h: nat, a: Alts) {
    ShapedAlts(a) && AltsAt(code, p, h, a) && p + AltsSize(h, a) < |code| &&
    OP_KET <= code[p + AltsSize(h, a)] <= OP_KETRPOS && h == HeaderLength(code[p])
  }

  /** One branch of a group, and where its header leads. */
  lemma GroupStep(code: seq<int>, p: nat, h: nat, a: Alts)
    requires GroupAt(code, p, h, a)
    ensures var q := p + Get(code, p + 1);
            && p + 2 < |code| && q == p + h + BranchSize(a.b) && ShapedBranch(a.b) && BranchAt(code, p + h, a.b) && BranchEnd(code, q)
            && (code[q] == OP_ALT <==> a.More?)
            && (a.More? ==> GroupAt(code, q, 1 + LINK_SIZE, a.rest) &&
                            q + AltsSize(1 + LINK_SIZE, a.rest) == p + AltsSize(h, a))
            && (a.Last? ==> q == p + AltsSize(h, a))
  {
    hide BranchAt, BranchSize, ShapedBranch;
  }

  lemma GroupOf(code: seq<int>, p: nat, bra: Item)
    requires bra.Bra? && ShapedItem(bra) && ItemAt(code, p, bra)
    ensures GroupAt(code, p, HeadSize(bra.cap), bra.alts) && IsBra(code[p])
    ensures p + AltsSize(HeadSize(bra.cap), bra.alts) + 3 == p + ItemSize(bra)
    ensures var k := p + AltsSize(HeadSize(bra.cap), bra.alts);
            code[k] == KetOp(bra.ket) && code[p] == BraOp(bra.cap, bra.ket)
  {
    hide AltsAt, AltsSize, ShapedAlts, ItemAt;
    BraParts(code, p, bra);
    ShapedBra(bra);
  }

  lemma ShapedBra(it: Item)
    requires ShapedItem(it) && it.Bra?
    ensures ShapedAlts(it.alts)
  {}

  /** What the code shows of an item that is neither a bracket nor a
      zero-repeat prefix, for the scan for emptiness. */
  predicate MustMatch(code: seq<int>, p: nat)
    requires p < |code|
  {
    var c := code[p];
    if c == OP_CLASS then
      p + 33 < |code| &&
      (if OP_CRSTAR <= code[p + 33] < OP_CRPLUS || OP_CRQUERY <= code[p + 33] < OP_CRRANGE then false
       else if code[p + 33] == OP_CRRANGE || code[p + 33] == OP_CRMINRANGE then p + 35 < |code| && Get(code, p + 34) > 0
       else true)
    else
      IsTypeOp(c) || c == OP_CHAR || c == OP_PLUS || c == OP_PLUS + 1 || c == OP_POSPLUS || c == OP_EXACT ||
      c == OP_TYPEPLUS || c == OP_TYPEPLUS + 1 || c == OP_TYPEPOSPLUS || c == OP_TYPEEXACT
  }

  /** How far such an item reaches. */
  function FlatSize(code: seq<int>, p: nat): nat
    requires p < |code|
  {
    var c := code[p];
    if c == OP_CLASS then
      if p + 33 < |code| && OP_CRSTAR <= code[p + 33] < OP_CRRANGE then 34
      else if p + 33 < |code| && OP_CRRANGE <= code[p + 33] <= OP_CRMINRANGE then 38
      else 33
    else if c == OP_CHAR then 2
    else if OP_STAR <= c < OP_UPTO || OP_TYPESTAR <= c < OP_TYPEUPTO then 2
    else if OP_POSSTAR <= c <= OP_POSQUERY || OP_TYPEPOSSTAR <= c <= OP_TYPEPOSQUERY then 2
    else if c == OP_POSUPTO || c == OP_TYPEPOSUPTO then 4
    else if OP_UPTO <= c <= OP_EXACT || OP_TYPEUPTO <= c <= OP_TYPEEXACT then 4
    else 1
  }

  lemma FlatItem(code: seq<int>, p: nat, it: Item)
    requires ShapedItem(it) && ItemAt(code, p, it) && !it.Bra? && !it.BraZero?
    requires p + ItemSize(it) < |code| && !(OP_CRSTAR <= code[p + ItemSize(it)] <= OP_CRMINRANGE)
    ensures p < |code| && FlatSize(code, p) == ItemSize(it) && (MustMatch(code, p) <==> !NullItem(it))
    ensures !IsZero(code[p]) && !IsBra(code[p]) && !(OP_ALT <= code[p] <= OP_KETRPOS) && code[p] != OP_END
  {
    if it.Rep? {
      assert RepAt(code, p, it.x, it.kind, it.lazy);
    }
  }

  /** What follows the head of a branch is not a class repeat. */
  lemma NextPlain(code: seq<int>, p: nat, b: Branch)
    requires b.Cons? && ShapedBranch(b) && BranchAt(code, p, b) && BranchStop(code, p + BranchSize(b))
    ensures ShapedItem(b.hd) && ItemAt(code, p, b.hd) && ShapedBranch(b.tl) && BranchAt(code, p + ItemSize(b.hd), b.tl)
    ensures p + BranchSize(b) == p + ItemSize(b.hd) + BranchSize(b.tl)
    ensures var q := p + ItemSize(b.hd); q < |code| && !(OP_CRSTAR <= code[q] <= OP_CRMINRANGE)
  {
    hide ItemAt, ItemSize, ShapedItem, HeadOp;
    var q := p + ItemSize(b.hd);
    if b.tl.Cons? {
      ItemOp(code, q, b.tl.hd);
      HeadOpRange(b.tl.hd);
    }
  }

  lemma BranchEndMeans(code: seq<int>, q: nat)
    requires BranchEnd(code, q)
    ensures q < |code| && OP_ALT <= code[q] <= OP_KETRPOS
  {}

  lemma BranchStopMeans(code: seq<int>, q: nat)
    requires BranchStop(code, q)
    ensures q < |code| && (OP_ALT <= code[q] <= OP_KETRPOS || code[q] == OP_END)
    ensures code[q] != OP_END ==> BranchEnd(code, q)
  {}

  /** The opcode tells brackets and zero-repeat prefixes from other items. */
  lemma KindOfHead(code: seq<int>, p: nat, it: Item)
    requires ShapedItem(it) && ItemAt(code, p, it)
    ensures p < |code| && !(OP_ALT <= code[p] <= OP_KETRPOS) && code[p] != OP_END
    ensures IsZero(code[p]) <==> it.BraZero?
    ensures IsBra(code[p]) <==> it.Bra?
  {
    ItemOp(code, p, it);
    hide ItemAt;
  }

  lemma ZeroGroup(code: seq<int>, p: nat, it: Item)
    requires it.BraZero? && ShapedItem(it) && ItemAt(code, p, it)
    ensures it.bra.Bra? && GroupAt(code, p + 1, HeadSize(it.bra.cap), it.bra.alts) && NullItem(it)
    ensures p + 1 + AltsSize(HeadSize(it.bra.cap), it.bra.alts) + 3 == p + ItemSize(it)
  {
    hide AltsAt, AltsSize, ShapedAlts, NullAlts;
    GroupOf(code, p + 1, it.bra);
  }

  /** A bracket already marked is skipped as possibly empty. */
  lemma NullBra(code: seq<int>, p: nat, it: Item)
    requires it.Bra? && ShapedItem(it) && ItemAt(code, p, it)
    ensures p < |code| && (NullItem(it) <==> IsSBra(code[p]) || NullAlts(it.alts))
  {
    hide AltsAt, AltsSize, ShapedAlts, NullAlts;
  }

  lemma HeadLength(code: seq<int>, p: nat, h: nat, a: Alts)
    requires GroupAt(code, p, h, a)
    ensures p < |code| && h == HeaderLength(code[p])
  {
    hide AltsAt, AltsSize, ShapedAlts;
  }

  /** From a bracket header along the links to the ket. */
  method ToKet(code: seq<int>, start: nat, ghost h: nat, ghost a: Alts) returns (pc: nat)
    requires GroupAt(code, start, h, a)
    ensures pc == start + AltsSize(h, a)
  {
    hide GroupAt, AltsSize, Get;
    pc := start;
    ghost var h': nat, a' := h, a;
    while true
      invariant GroupAt(code, pc, h', a') && pc + AltsSize(h', a') == start + AltsSize(h, a)
      decreases a'
    {
      GroupStep(code, pc, h', a');
      pc := pc + Get(code, pc + 1);
      if code[pc] != OP_ALT { return; }
      h', a' := 1 + LINK_SIZE, a'.rest;
    }
  }

  /** could_be_empty_branch(): `start` is the header of a branch. */
  method CouldBeEmptyBranch(code: seq<int>, start: nat, endcode: nat, ghost b: Branch) returns (empty: bool)
    requires start < |code| && ShapedBranch(b) && BranchAt(code, start + HeaderLength(code[start]), b)
    requires start + HeaderLength(code[start]) + BranchSize(b) <= endcode
    requires BranchEnd(code, start + HeaderLength(code[start]) + BranchSize(b))
    ensures empty == NullBranch(b)
    decreases b
  {
    hide ItemAt, ItemSize, ShapedItem, NullItem, MustMatch, FlatSize, BranchEnd, GroupAt, AltsAt, AltsSize, HeadSize, HeaderLength, BraOp, KetOp, NullAlts;
    var pc: nat := start + HeaderLength(code[start]);
    ghost var tl := b;
    while pc < endcode
      invariant ShapedBranch(tl) && BranchAt(code, pc, tl) && (tl == b || tl < b)
      invariant pc + BranchSize(tl) == start + HeaderLength(code[start]) + BranchSize(b)
      invariant NullBranch(b) == NullBranch(tl)
      decreases tl
    {
      BranchEndMeans(code, pc + BranchSize(tl));
      if tl.Cons? {
        NextPlain(code, pc, tl);
        KindOfHead(code, pc, tl.hd);
      }
      var c := code[pc];
      if OP_ALT <= c <= OP_KETRPOS {
        return true;
      } else if IsZero(c) {
        ZeroGroup(code, pc, tl.hd);
        var ket := ToKet(code, pc + 1, HeadSize(tl.hd.bra.cap), tl.hd.bra.alts);
        pc := ket + 1 + LINK_SIZE;
      } else if IsBra(c) {
        GroupOf(code, pc, tl.hd);
        NullBra(code, pc, tl.hd);
        var some := true;
        if IsSBra(c) {
          pc := ToKet(code, pc, HeadSize(tl.hd.cap), tl.hd.alts);
        } else {
          some, pc := AnyBranchEmpty(code, pc, endcode, HeadSize(tl.hd.cap), tl.hd.alts);
        }
        if !some { return false; }
        pc := pc + 1 + LINK_SIZE;
      } else {
        FlatItem(code, pc, tl.hd);
        if MustMatch(code, pc) { return false; }
        pc := pc + FlatSize(code, pc);
      }
      tl := tl.tl;
    }
    if tl.Cons? { SizePositive(tl.hd); }
    empty := true;
  }

  lemma SizePositive(it: Item)
    ensures ItemSize(it) > 0
  {}

  /** Whether some branch of a group could be empty; `ket` is its end. */
  method AnyBranchEmpty(code: seq<int>, start: nat, endcode: nat, ghost h: nat, ghost a: Alts) returns (some: bool, ket: nat)
    requires GroupAt(code, start, h, a) && start + AltsSize(h, a) <= endcode
    ensures some == NullAlts(a) && ket == start + AltsSize(h, a)
    decreases a
  {
    hide GroupAt, AltsSize, Get, BranchEnd, BranchAt, BranchSize, ShapedBranch, NullBranch, HeaderLength, HeadSize, IsBra;
    some, ket := false, start;
    ghost var h': nat, a' := h, a;
    while true
      invariant GroupAt(code, ket, h', a') && ket + AltsSize(h', a') == start + AltsSize(h, a)
      invariant NullAlts(a) == (some || NullAlts(a')) && (a' == a || a' < a)
      decreases a'
    {
      GroupStep(code, ket, h', a');
      HeadLength(code, ket, h', a');
      if !some {
        some := CouldBeEmptyBranch(code, ket, endcode, a'.b);
      }
      ket := ket + Get(code, ket + 1);
      BranchEndMeans(code, ket);
      if code[ket] != OP_ALT { return; }
      h', a' := 1 + LINK_SIZE, a'.rest;
    }
  }

  /** What find_fixedlength() takes an item that is not a bracket to match;
      -1 if it varies. */
  function FlatLength(code: seq<int>, p: nat): int
    requires p < |code|
  {
    var c := code[p];
    if IsZeroOp(c) then 0
    else if IsTypeOp(c) || c == OP_CHAR then 1
    else if c == OP_EXACT || c == OP_TYPEEXACT then if p + 2 < |code| then Get(code, p + 1) else -1
    else if c == OP_CLASS && p + 37 < |code| && OP_CRRANGE <= code[p + 33] <= OP_CRMINRANGE then
      if Get(code, p + 34) != Get(code, p + 36) then -1 else Get(code, p + 34)
    else if c == OP_CLASS && p + 33 < |code| && OP_CRSTAR <= code[p + 33] < OP_CRRANGE then -1
    else if c == OP_CLASS then 1
    else -1
  }

  lemma FlatFixed(code: seq<int>, p: nat, it: Item)
    requires ShapedItem(it) && ItemAt(code, p, it) && !it.Bra? && !it.BraZero?
    requires p + ItemSize(it) < |code| && !(OP_CRSTAR <= code[p + ItemSize(it)] <= OP_CRMINRANGE)
    ensures p < |code| && FlatLength(code, p) == FixedItem(it)
  {
    if it.Rep? {
      assert RepAt(code, p, it.x, it.kind, it.lazy);
    }
  }

  lemma FixedLow(it: Item)
    ensures FixedItem(it) >= -1
  {
    if it.Bra? { FixedAltsLow(it.alts); }
  }

  lemma {:induction false} FixedAltsLow(a: Alts)
    ensures FixedAlts(a) >= -1
    decreases a
  {
    FixedBranchLow(a.b);
    if a.More? { FixedAltsLow(a.rest); }
  }

  lemma {:induction false} FixedBranchLow(b: Branch)
    ensures FixedBranch(b) >= -1
    decreases b
  {
    hide FixedItem;
    if b.Cons? {
      FixedBranchLow(b.tl);
    }
  }

  /** find_fixedlength() on the group whose header ends just before
      `start` + 1 + LINK_SIZE. */
  method FindFixedLength(code: seq<int>, start: nat, ghost p: nat, ghost h: nat, ghost a: Alts) returns (length: int)
    requires GroupAt(code, p, h, a) && start + 1 + LINK_SIZE == p + h
    ensures length == if code[p + AltsSize(h, a)] == OP_KET then FixedAlts(a) else -1
    decreases a, 1
  {
    hide GroupAt, AltsSize, Get, BranchEnd, BranchAt, BranchSize, ShapedBranch, HeaderLength, HeadSize, IsBra, FixedBranch;
    length := -1;
    var cc: nat := start + 1 + LINK_SIZE;
    ghost var p': nat, h': nat, a' := p, h, a;
    while true
      invariant GroupAt(code, p', h', a') && cc == p' + h' && p' + AltsSize(h', a') == p + AltsSize(h, a)
      invariant length == -1 ==> a' == a
      invariant length != -1 ==> length >= 0 && a' < a && FixedAlts(a) == if FixedAlts(a') == length then length else -1
      decreases a'
    {
      GroupStep(code, p', h', a');
      var branchlength: int;
      branchlength, cc := BranchLength(code, cc, a'.b);
      FixedBranchLow(a'.b);
      if branchlength < 0 { return -1; }
      BranchEndMeans(code, cc);
      if OP_KETRMAX <= code[cc] { return -1; }
      if length < 0 {
        length := branchlength;
      } else if length != branchlength {
        return -1;
      }
      if code[cc] != OP_ALT { return; }
      FixedAltsLow(a'.rest);
      p', h', a' := cc, 1 + LINK_SIZE, a'.rest;
      cc := cc + 1 + LINK_SIZE;
    }
  }

  /** The items of one branch; `end` is where the branch ends if all are fixed. */
  method BranchLength(code: seq<int>, start: nat, ghost b: Branch) returns (branchlength: int, end: nat)
    requires ShapedBranch(b) && BranchAt(code, start, b) && BranchStop(code, start + BranchSize(b))
    ensures branchlength == FixedBranch(b) && (branchlength >= 0 ==> end == start + BranchSize(b))
    decreases b, 2
  {
    hide ItemAt, ItemSize, ShapedItem, FixedItem, FlatLength, FlatSize, BranchEnd, BranchStop, GroupAt, Get, AltsSize, AltsAt, HeadSize, HeaderLength, BraOp, KetOp, FixedAlts;
    branchlength, end := 0, start;
    ghost var tl := b;
    while true
      invariant ShapedBranch(tl) && BranchAt(code, end, tl) && (tl == b || tl < b)
      invariant end + BranchSize(tl) == start + BranchSize(b) && branchlength >= 0
      invariant FixedBranch(b) == if FixedBranch(tl) < 0 then -1 else branchlength + FixedBranch(tl)
      decreases tl
    {
      BranchStopMeans(code, end + BranchSize(tl));
      if tl.Cons? {
        NextPlain(code, end, tl);
        KindOfHead(code, end, tl.hd);
        FixedLow(tl.hd);
        FixedBranchLow(tl.tl);
      }
      var op := code[end];
      if OP_ALT <= op <= OP_KETRPOS || op == OP_END {
        return;
      } else if op == OP_BRA || op == OP_CBRA || op == OP_ONCE {
        GroupOf(code, end, tl.hd);
        FixedBra(tl.hd, op);
        var d := FindFixedLength(code, end + (if op == OP_CBRA then 2 else 0), end, HeadSize(tl.hd.cap), tl.hd.alts);
        if d < 0 { return d, end; }
        branchlength := branchlength + d;
        end := ToKet(code, end, HeadSize(tl.hd.cap), tl.hd.alts);
        end := end + 1 + LINK_SIZE;
      } else if IsBra(op) || IsZero(op) {
        NeverFixed(code, end, tl.hd);
        return -1, end;
      } else {
        FlatFixed(code, end, tl.hd);
        FlatItem(code, end, tl.hd);
        if FlatLength(code, end) < 0 { return -1, end; }
        branchlength := branchlength + FlatLength(code, end);
        end := end + FlatSize(code, end);
      }
      tl := tl.tl;
    }
  }

  lemma FixedBra(it: Item, op: int)
    requires it.Bra? && ShapedItem(it)
    ensures FixedItem(it) == if KetOp(it.ket) == OP_KET then FixedAlts(it.alts) else -1
    ensures op == BraOp(it.cap, it.ket) && (op == OP_BRA || op == OP_CBRA || op == OP_ONCE) ==>
              HeadSize(it.cap) == if op == OP_CBRA then 3 + LINK_SIZE else 1 + LINK_SIZE
  {
    hide FixedAlts;
  }

  lemma NeverFixed(code: seq<int>, p: nat, it: Item)
    requires ShapedItem(it) && ItemAt(code, p, it) && p < |code|
    requires (IsBra(code[p]) && code[p] != OP_BRA && code[p] != OP_CBRA && code[p] != OP_ONCE) || IsZero(code[p])
    ensures FixedItem(it) == -1
  {
    hide ItemAt, FixedAlts, ShapedItem;
    ItemOp(code, p, it);
    KindOfHead(code, p, it);
  }

  // ---- Lookbehind ----

  /** A lookbehind branch that steps back its fixed length and then matches
      ends where it started. */
  lemma LookbehindReturns(b: Branch, s: seq<byte>, i: nat, j: nat)
    requires WFBranch(b) && 0 <= FixedBranch(b) <= i && BranchL(b, s, i - FixedBranch(b), j)
    ensures j == i
  {
    hide BranchL, FixedBranch;
    FixedBranchLength(b, s, i - FixedBranch(b), j);
  }

  /** The branch matches some stretch that starts at `i`, or one that ends there. */
  ghost predicate BranchFrom(b: Branch, s: seq<byte>, i: nat) { exists j: nat :: BranchL(b, s, i, j) }
  ghost predicate BranchUpTo(b: Branch, s: seq<byte>, i: nat) { exists k: nat :: BranchL(b, s, k, i) }

  /** Stepping back the fixed length finds every stretch that ends here: the
      branch matches from there exactly if it matches up to here from anywhere. */
  lemma LookbehindFinds(b: Branch, s: seq<byte>, i: nat)
    requires WFBranch(b) && FixedBranch(b) >= 0
    ensures FixedBranch(b) <= i && BranchFrom(b, s, i - FixedBranch(b)) <==> BranchUpTo(b, s, i)
  {
    hide BranchL, FixedBranch;
    if BranchUpTo(b, s, i) {
      var k: nat :| BranchL(b, s, k, i);
      FixedBranchLength(b, s, k, i);
      BranchRange(b, s, k, i);
    }
    if FixedBranch(b) <= i && BranchFrom(b, s, i - FixedBranch(b)) {
      var k: nat := i - FixedBranch(b);
      var j: nat :| BranchL(b, s, k, j);
      LookbehindReturns(b, s, i, j);
    }
  }

  /** compile_regex() calls find_fixedlength() for a branch of a lookbehind that
      has just been compiled: its header is at `last_branch`, an OP_REVERSE
      follows, and OP_END marks its end for the time being. */
  method FixedLookbehind(code: seq<int>, last_branch: nat, ghost b: Branch) returns (length: int)
    requires ShapedBranch(b) && last_branch + 3 < |code| && code[last_branch + 3] == OP_REVERSE
    requires BranchAt(code, last_branch + 6, b) && last_branch + 6 + BranchSize(b) < |code|
    requires code[last_branch + 6 + BranchSize(b)] == OP_END
    ensures length == FixedBranch(b)
  {
    hide BranchAt, BranchSize, ShapedBranch, FixedBranch;
    var cc := last_branch + 1 + LINK_SIZE;
    if code[cc] == OP_REVERSE { cc := cc + 1 + LINK_SIZE; }
    length, cc := BranchLength(code, cc, b);
  }

  /** OP_REVERSE in match(): step back, or fail if that is before the subject. */
  method StepBack(code: seq<int>, ecode: nat, eptr: nat) returns (ok: bool, eptr': nat, next: nat)
    requires ecode + 2 < |code| && Get(code, ecode + 1) >= 0
    ensures ok <==> Get(code, ecode + 1) <= eptr
    ensures ok ==> eptr' == eptr - Get(code, ecode + 1) && next == ecode + 1 + LINK_SIZE
  {
    var back: int := eptr - Get(code, ecode + 1);
    ok := back >= 0;
    eptr', next := if ok then back else 0, ecode + 1 + LINK_SIZE;
  }

  /** A lookbehind branch as it is compiled and entered: its length is worked
      out, put into OP_REVERSE, and the subject pointer moved back by it. The
      branch then has a match if and only if it matches some stretch that ends
      at the pointer, and every match it has ends there. */
  method Lookbehind(buf: array<int>, last_branch: nat, code: nat, s: seq<byte>, eptr: nat, ghost b: Branch)
    returns (fixed_length: int, ok: bool, eptr': nat)
    requires WFBranch(b) && last_branch + 6 <= buf.Length && buf[last_branch + 3] == OP_REVERSE
    requires BranchAt(buf[..], last_branch + 6, b) && code == last_branch + 6 + BranchSize(b) < buf.Length
    requires eptr <= |s|
    modifies buf
    ensures fixed_length == FixedBranch(b)
    ensures fixed_length >= 0 ==>
              (ok && BranchFrom(b, s, eptr') <==> BranchUpTo(b, s, eptr)) &&
              (ok ==> forall j: nat :: BranchL(b, s, eptr', j) ==> j == eptr)
  {
    hide BranchAt, BranchSize, BranchL, WFBranch, ShapedBranch, FixedBranch, BranchStop;
    WFShapedBranch(b);
    buf[code] := OP_END;
    BranchKept(old(buf[..]), buf[..], code, last_branch + 6, b);
    fixed_length := FixedLookbehind(buf[..], last_branch, b);
    ok, eptr' := false, 0;
    if fixed_length >= 0 {
      buf[last_branch + 4], buf[last_branch + 5] := fixed_length / 256, fixed_length % 256;
      var next;
      ok, eptr', next := StepBack(buf[..], last_branch + 3, eptr);
      LookbehindFinds(b, s, eptr);
      if ok {
        forall j: nat | BranchL(b, s, eptr', j) ensures j == eptr { LookbehindReturns(b, s, eptr, j); }
      }
    }
  }

  /** is_anchored() on the group with header at `start`. */
  method IsAnchored(code: seq<int>, start: nat, ghost h: nat, ghost a: Alts) returns (r: bool)
    requires GroupAt(code, start, h, a)
    ensures r == AnchoredAlts(a)
    decreases a
  {
    hide GroupAt, AltsSize, Get, BranchEnd, BranchAt, BranchSize, ShapedBranch, HeaderLength, HeadSize, AnchoredBranch;
    var p: nat := start;
    ghost var h': nat, a' := h, a;
    while true
      invariant GroupAt(code, p, h', a') && (a' == a || a' < a)
      invariant AnchoredAlts(a) == AnchoredAlts(a')
      decreases a'
    {
      GroupStep(code, p, h', a');
      HeadLength(code, p, h', a');
      BranchEndMeans(code, p + h' + BranchSize(a'.b));
      var scode := p + HeaderLength(code[p]);
      FirstItem(code, scode, a'.b);
      var op := code[scode];
      if IsBra(op) {
        GroupOf(code, scode, a'.b.hd);
        var inner := IsAnchored(code, scode, HeadSize(a'.b.hd.cap), a'.b.hd.alts);
        if !inner { return false; }
      } else if op == OP_TYPESTAR || op == OP_TYPESTAR + 1 || op == OP_TYPEPOSSTAR {
        if code[scode + 1] != OP_ALLANY { return false; }
      } else if op != OP_SOD && op != OP_CIRC {
        return false;
      }
      p := p + Get(code, p + 1);
      BranchEndMeans(code, p);
      if code[p] != OP_ALT { return true; }
      h', a' := 1 + LINK_SIZE, a'.rest;
    }
  }

  /** is_startline() on the group with header at `start`. */
  method IsStartline(code: seq<int>, start: nat, ghost h: nat, ghost a: Alts) returns (r: bool)
    requires GroupAt(code, start, h, a)
    ensures r == StartlineAlts(a)
    decreases a
  {
    hide GroupAt, AltsSize, Get, BranchEnd, BranchAt, BranchSize, ShapedBranch, HeaderLength, HeadSize, StartlineBranch;
    var p: nat := start;
    ghost var h': nat, a' := h, a;
    while true
      invariant GroupAt(code, p, h', a') && (a' == a || a' < a)
      invariant StartlineAlts(a) == StartlineAlts(a')
      decreases a'
    {
      GroupStep(code, p, h', a');
      HeadLength(code, p, h', a');
      BranchEndMeans(code, p + h' + BranchSize(a'.b));
      var scode := p + HeaderLength(code[p]);
      FirstItem(code, scode, a'.b);
      var op := code[scode];
      if IsBra(op) {
        GroupOf(code, scode, a'.b.hd);
        var inner := IsStartline(code, scode, HeadSize(a'.b.hd.cap), a'.b.hd.alts);
        if !inner { return false; }
      } else if op == OP_TYPESTAR || op == OP_TYPESTAR + 1 || op == OP_TYPEPOSSTAR {
        if code[scode + 1] != OP_ANY { return false; }
      } else if op != OP_CIRC && op != OP_CIRCM {
        return false;
      }
      p := p + Get(code, p + 1);
      BranchEndMeans(code, p);
      if code[p] != OP_ALT { return true; }
      h', a' := 1 + LINK_SIZE, a'.rest;
    }
  }

  /** What the code shows of the first item of a branch. */
  lemma FirstItem(code: seq<int>, p: nat, b: Branch)
    requires ShapedBranch(b) && BranchAt(code, p, b) && BranchEnd(code, p + BranchSize(b))
    ensures p < |code|
    ensures IsBra(code[p]) ==> b.Cons? && b.hd.Bra? && ShapedItem(b.hd) && ItemAt(code, p, b.hd) && b.hd.alts < b.hd < b &&
                               AnchoredBranch(b) == AnchoredAlts(b.hd.alts) && StartlineBranch(b) == StartlineAlts(b.hd.alts)
    ensures code[p] == OP_TYPESTAR || code[p] == OP_TYPESTAR + 1 || code[p] == OP_TYPEPOSSTAR ==>
              p + 1 < |code| && AnchoredBranch(b) == (code[p + 1] == OP_ALLANY) && StartlineBranch(b) == (code[p + 1] == OP_ANY)
    ensures !IsBra(code[p]) && code[p] != OP_TYPESTAR && code[p] != OP_TYPESTAR + 1 && code[p] != OP_TYPEPOSSTAR ==>
              AnchoredBranch(b) == (code[p] == OP_SOD || code[p] == OP_CIRC) &&
              StartlineBranch(b) == (code[p] == OP_CIRC || code[p] == OP_CIRCM)
  {
    BranchEndMeans(code, p + BranchSize(b));
    if b.Cons? {
      FirstParts(code, p, b);
      HeadShows(code, p, b.hd);
      hide ItemAt, BranchAt, AnchoredAlts, StartlineAlts, ShapedBranch, BranchSize;
    }
  }

  lemma FirstParts(code: seq<int>, p: nat, b: Branch)
    requires b.Cons? && ShapedBranch(b) && BranchAt(code, p, b)
    ensures ShapedItem(b.hd) && ItemAt(code, p, b.hd)
  {
    hide ItemAt, ShapedItem;
  }

  lemma HeadShows(code: seq<int>, p: nat, it: Item)
    requires ShapedItem(it) && ItemAt(code, p, it)
    ensures p < |code| && code[p] == HeadOp(it)
    ensures code[p] == OP_TYPESTAR || code[p] == OP_TYPESTAR + 1 || code[p] == OP_TYPEPOSSTAR ==>
              p + 1 < |code| && it.Rep? && (it.kind.Star? || it.kind.PosStar?) && it.x == Type(code[p + 1])
  {
    hide AltsAt, AltsSize;
    ItemOp(code, p, it);
    if it.Rep? {
      assert RepAt(code, p, it.x, it.kind, it.lazy);
    }
  }
}
