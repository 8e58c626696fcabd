/** The backtracking matcher match() of pcre_exec.c, on byte-code. */
module Exec {
  import opened Opcodes
  import opened Tree
  import opened Kont
  import opened Moves
  import opened Language
  import opened Spans
  import opened Order
  import opened Backtrack

  const MATCH_MATCH := 1
  const MATCH_NOMATCH := 0

  // ---- Capture offsets ----

  /** `x` is a data slot of a capturing group that is still open. */
  predicate OpenSlot(k: Kont, max: nat, x: nat) {
    k.In? &&
    ((k.bra.Bra? && k.bra.cap > 0 && 2 * k.bra.cap < max && x / 2 == k.bra.cap) || OpenSlot(k.k, max, x))
  }

  /** The open groups that have a pair of data slots below the high-water mark
      find it as it was, or holding a stretch that the group matched from its
      start. */
  ghost predicate PairsLeft(was: seq<int>, now: seq<int>, max: nat, top: nat, k: Kont, s: seq<byte>) {
    k.In? ==>
      (k.bra.Bra? && k.bra.cap > 0 && 2 * k.bra.cap < max && 2 * k.bra.cap < top && 2 * k.bra.cap + 1 < |was| == |now| ==>
         var x := 2 * k.bra.cap;
         (now[x] == was[x] && now[x + 1] == was[x + 1]) ||
         (now[x] == k.entry && 0 <= now[x + 1] && AltsL(k.bra.alts, s, k.entry, now[x + 1]))) &&
      PairsLeft(was, now, max, top, k.k, s)
  }

  /** What a failed call leaves: the data slots below its high-water mark and all
      working slots are as they were, except the data slots of groups still
      open, which may hold a later stretch. */
  ghost predicate Undone(was: seq<int>, now: seq<int>, max: nat, top: nat, k: Kont, s: seq<byte>) {
    |was| == |now| && PairsLeft(was, now, max, top, k, s) &&
    forall x: nat :: x < |was| && (x < top || x >= max) && !OpenSlot(k, max, x) ==> now[x] == was[x]
  }

  lemma {:induction false} PairsSame(a: seq<int>, b: seq<int>, max: nat, top: nat, k: Kont, s: seq<byte>)
    requires |a| == |b| && forall c: nat :: IsOpen(k, c) && c > 0 && 2 * c + 1 < |a| && 2 * c < top ==> b[2 * c] == a[2 * c] && b[2 * c + 1] == a[2 * c + 1]
    ensures PairsLeft(a, b, max, top, k, s)
    decreases k
  {
    hide AltsL;
    if k.In? { PairsSame(a, b, max, top, k.k, s); }
  }

  lemma {:induction false} PairsTrans(a: seq<int>, b: seq<int>, c: seq<int>, max: nat, top: nat, k: Kont, s: seq<byte>)
    requires |a| == |b| == |c| && PairsLeft(a, b, max, top, k, s) && PairsLeft(b, c, max, top, k, s)
    ensures PairsLeft(a, c, max, top, k, s)
    decreases k
  {
    hide AltsL;
    if k.In? { PairsTrans(a, b, c, max, top, k.k, s); }
  }

  lemma {:induction false} PairsTop(a: seq<int>, b: seq<int>, max: nat, top: nat, top': nat, k: Kont, s: seq<byte>)
    requires PairsLeft(a, b, max, top', k, s) && top <= top'
    ensures PairsLeft(a, b, max, top, k, s)
    decreases k
  {
    hide AltsL;
    if k.In? { PairsTop(a, b, max, top, top', k.k, s); }
  }

  lemma ZeroL(it: Item, s: seq<byte>, i: nat)
    requires it.Zero? && i <= |s|
    ensures forall j: nat :: ItemL(it, s, i, j) <==> i == j && ZeroHolds(it.op, s, i)
    ensures NullItem(it) && ItemSize(it) == 1
  {
    hide ZeroHolds;
  }

  lemma UndoneRefl(a: seq<int>, max: nat, top: nat, k: Kont, s: seq<byte>)
    ensures Undone(a, a, max, top, k, s)
  {
    hide PairsLeft;
    PairsSame(a, a, max, top, k, s);
  }

  lemma UndoneTrans(a: seq<int>, b: seq<int>, c: seq<int>, max: nat, top: nat, k: Kont, s: seq<byte>)
    requires Undone(a, b, max, top, k, s) && Undone(b, c, max, top, k, s)
    ensures Undone(a, c, max, top, k, s)
  {
    hide PairsLeft;
    PairsTrans(a, b, c, max, top, k, s);
  }

  lemma UndoneTop(a: seq<int>, b: seq<int>, max: nat, top: nat, top': nat, k: Kont, s: seq<byte>)
    requires Undone(a, b, max, top', k, s) && top <= top'
    ensures Undone(a, b, max, top, k, s)
  {
    hide PairsLeft;
    PairsTop(a, b, max, top, top', k, s);
  }

  lemma {:induction false} OpenSlotOpen(k: Kont, max: nat, x: nat)
    ensures OpenSlot(k, max, x) ==> IsOpen(k, x / 2)
    decreases k
  {
    if k.In? { OpenSlotOpen(k.k, max, x); }
  }

  lemma NotOpenSlot(k: Kont, max: nat, c: nat)
    requires !IsOpen(k, c)
    ensures !OpenSlot(k, max, 2 * c) && !OpenSlot(k, max, 2 * c + 1)
  {
    OpenSlotOpen(k, max, 2 * c);
    OpenSlotOpen(k, max, 2 * c + 1);
  }

  /** A call outside the innermost open group leaves that group's pair alone. */
  lemma UndoneOuter(a: seq<int>, b: seq<int>, max: nat, top: nat, k: Kont, s: seq<byte>)
    requires k.In? && Undone(a, b, max, top, k.k, s) && top % 2 == 0 && (k.bra.Bra? && k.bra.cap > 0 ==> !IsOpen(k.k, k.bra.cap))
    ensures Undone(a, b, max, top, k, s)
    ensures k.bra.Bra? && k.bra.cap > 0 && 2 * k.bra.cap + 1 < |a| && 2 * k.bra.cap < top ==>
              b[2 * k.bra.cap] == a[2 * k.bra.cap] && b[2 * k.bra.cap + 1] == a[2 * k.bra.cap + 1]
  {
    hide AltsL;
    if k.bra.Bra? && k.bra.cap > 0 { NotOpenSlot(k.k, max, k.bra.cap); }
  }

  /** A bracket that puts its own slots back leaves no slot of its own open. */
  lemma UndoneRestored(a: seq<int>, b: seq<int>, c: seq<int>, max: nat, top: nat, k: Kont, w: nat, e: int, s: seq<byte>)
    requires k.In? && k.bra.Bra? && k.bra.cap > 0 && 2 * k.bra.cap + 1 < |a| == |b| && max <= w < |a| && 2 * k.bra.cap < max && max % 2 == 0
    requires Undone(a[w := e], b, max, top, k, s) && !IsOpen(k.k, k.bra.cap)
    requires c == b[2 * k.bra.cap := a[2 * k.bra.cap]][2 * k.bra.cap + 1 := a[2 * k.bra.cap + 1]][w := a[w]]
    ensures Undone(a, c, max, top, k.k, s)
  {
    hide PairsLeft;
    forall x: nat | x < |a| && (x < top || x >= max) && !OpenSlot(k.k, max, x) ensures c[x] == a[x] {
      if x / 2 != k.bra.cap { assert !OpenSlot(k, max, x); }
    }
    PairsOuter(a[w := e], b, max, top, k, s);
    PairsElsewhere(a[w := e], b, a, c, max, top, k.k, s);
  }

  lemma PairsOuter(a: seq<int>, b: seq<int>, max: nat, top: nat, k: Kont, s: seq<byte>)
    requires k.In? && PairsLeft(a, b, max, top, k, s)
    ensures PairsLeft(a, b, max, top, k.k, s)
  {
    hide AltsL;
  }

  /** Only the data slots of open groups matter. */
  lemma {:induction false} PairsElsewhere(a: seq<int>, b: seq<int>, a': seq<int>, b': seq<int>, max: nat, top: nat, k: Kont, s: seq<byte>)
    requires PairsLeft(a, b, max, top, k, s) && |a| == |b| == |a'| == |b'|
    requires forall c: nat :: IsOpen(k, c) && c > 0 && 2 * c + 1 < |a| && 2 * c < max ==>
               a'[2 * c] == a[2 * c] && a'[2 * c + 1] == a[2 * c + 1] && b'[2 * c] == b[2 * c] && b'[2 * c + 1] == b[2 * c + 1]
    ensures PairsLeft(a', b', max, top, k, s)
    decreases k
  {
    hide AltsL;
    if k.In? { PairsElsewhere(a, b, a', b', max, top, k.k, s); }
  }

  lemma RunMore(x: Single, s: seq<byte>, i: nat, p: nat)
    requires Run(x, s, i, p) && p < |s| && Hit(x, s[p])
    ensures Run(x, s, i, p + 1)
  {}

  lemma RunLess(x: Single, s: seq<byte>, i: nat, p: nat, q: nat)
    requires Run(x, s, i, p) && i <= q <= p
    ensures Run(x, s, i, q)
  {}

  /** A repeat that stops short of its minimum matches nothing. */
  lemma TooShort(tail: Branch, k: Kont, x: Single, lo: nat, hi: int, s: seq<byte>, i: nat, p: nat)
    requires tail.Cons? && WFItem(tail.hd) && WFSingle(x) && Repeats(tail.hd, x, lo, hi)
    requires i <= p < i + lo && (p >= |s| || !Hit(x, s[p]))
    ensures Dead(tail, k, s, i)
  {
    hide Dead;
    forall m: nat ensures !ItemL(tail.hd, s, i, m) {
      RepeatsL(tail.hd, x, lo, hi, s, i, m);
    }
    NoSuccessor(tail.hd, tail.tl, k, s, i);
  }

  /** Every length a repeat may take was tried, up to the longest run. */
  lemma AllTried(tail: Branch, k: Kont, x: Single, lo: nat, hi: int, s: seq<byte>, i: nat, p: nat)
    requires tail.Cons? && WFItem(tail.hd) && WFSingle(x) && Repeats(tail.hd, x, lo, hi)
    requires i <= p && (p - i == hi || p >= |s| || !Hit(x, s[p]))
    requires forall m: nat :: i + lo <= m <= p ==> Dead(tail.tl, k, s, m)
    ensures Dead(tail, k, s, i)
  {
    hide Dead;
    forall m: nat | ItemL(tail.hd, s, i, m) ensures Dead(tail.tl, k, s, m) {
      RepeatsL(tail.hd, x, lo, hi, s, i, m);
    }
    NoSuccessor(tail.hd, tail.tl, k, s, i);
  }

  /** A possessive repeat has only one length. */
  lemma LongestTried(tail: Branch, k: Kont, x: Single, lo: nat, hi: int, s: seq<byte>, i: nat, p: nat)
    requires tail.Cons? && WFItem(tail.hd) && IsPossessive(tail.hd) && WFSingle(x) && Repeats(tail.hd, x, lo, hi)
    requires Run(x, s, i, p) && (hi < 0 || p - i <= hi) && Full(x, hi, s, i, p) && Dead(tail.tl, k, s, p)
    ensures Dead(tail, k, s, i)
  {
    hide Dead;
    forall m: nat | ItemL(tail.hd, s, i, m) ensures Dead(tail.tl, k, s, m) {
      RepeatsL(tail.hd, x, lo, hi, s, i, m);
      assert m == p;
    }
    NoSuccessor(tail.hd, tail.tl, k, s, i);
  }

  lemma BraHeaders(code: seq<int>, p: nat, bra: Item)
    requires ItemAt(code, p, bra) && bra.Bra?
    ensures var q := p + AltsSize(HeadSize(bra.cap), bra.alts); q < |code| && code[q] != OP_ALT
  {
    hide AltsAt, AltsSize;
  }

  /** What a bracket at the head of the branch shows. */
  lemma BraHead(code: seq<int>, n: nat, tail: Branch, k: Kont, pc: nat, i: nat, c: Chain)
    requires Ready(code, n, tail, k, pc, i, c) && tail.Cons? && tail.hd.Bra?
    ensures pc + 4 < |code| && (code[pc] == OP_CBRA || code[pc] == OP_SCBRA <==> tail.hd.cap > 0)
    ensures tail.hd.cap > 0 ==> Get(code, pc + 1 + LINK_SIZE) == tail.hd.cap
    ensures HeadSize(tail.hd.cap) == if tail.hd.cap > 0 then 3 + LINK_SIZE else 1 + LINK_SIZE
  {
    hide Ready, ItemAt, AltsAt;
    ReadyHead(code, n, tail, k, pc, i, c);
    BraParts(code, pc, tail.hd);
  }

  lemma CapHead(tail: Branch)
    requires tail.Cons? && tail.hd.Bra? && tail.hd.cap > 0
    ensures HeadSize(tail.hd.cap) == 3 + LINK_SIZE
  {}

  lemma CapShut(all: Groups, tail: Branch, k: Kont, s: seq<byte>, i: nat)
    requires Underway(all, tail, k, s, i) && tail.Cons? && tail.hd.Bra?
    ensures tail.hd.cap > 0 ==> !IsOpen(k, tail.hd.cap)
  {
    if tail.hd.cap > 0 { assert (tail.hd.cap, tail.hd.alts) in BranchGroups(tail); }
  }

  /** A group that is closed is not open further out. */
  lemma CapClosed(all: Groups, k: Kont, s: seq<byte>, i: nat)
    requires Underway(all, Nil, k, s, i) && k.In? && k.bra.Bra?
    ensures k.bra.cap > 0 ==> !IsOpen(k.k, k.bra.cap)
  {
    if k.bra.cap > 0 { assert (k.bra.cap, k.bra.alts) in ItemGroups(k.bra); }
  }

  /** A failed call leaves the working slots alone. */
  lemma WorkingKept(a: seq<int>, b: seq<int>, max: nat, top: nat, k: Kont, s: seq<byte>)
    requires Undone(a, b, max, top, k, s) && max % 2 == 0
    ensures |a| == |b| && forall x :: max <= x < |a| ==> b[x] == a[x]
  {
    forall x: nat | max <= x < |a| ensures b[x] == a[x] { NotData(k, max, x); }
  }

  lemma {:induction false} NotData(k: Kont, max: nat, x: nat)
    requires max <= x && max % 2 == 0
    ensures !OpenSlot(k, max, x)
    decreases k
  {
    if k.In? { NotData(k.k, max, x); }
  }

  lemma ShowsBack(a: seq<int>, b: seq<int>, max: nat, top: nat, k: Kont, caps: Caps, s: seq<byte>)
    requires Shows(a, max, top, caps, k) && Undone(a, b, max, top, k, s) && top % 2 == 0
    ensures Shows(b, max, top, caps, k)
  {
    forall c: nat | c > 0 && 2 * c < max && 2 * c < top && !IsOpen(k, c) ensures (b[2 * c], b[2 * c + 1]) == Pair(caps, c) {
      NotOpenSlot(k, max, c);
    }
  }

  lemma SlotsBack(a: seq<int>, b: seq<int>, end: nat, max: nat, top: nat, all: Groups, s: seq<byte>, k: Kont, caps: Caps)
    requires Slots(a, end, max, top, all, s, k, caps) && Undone(a, b, max, top, k, s) && Good(b, max, top, all, s)
    requires end % 3 == 0 && max == 2 * end / 3 && top % 2 == 0
    ensures Slots(b, end, max, top, all, s, k, caps)
  {
    hide Undone, Spanned, Shows;
    WorkingKept(a, b, max, top, k, s);
    StartsKept(a, b, end, max, k);
    ShowsBack(a, b, max, top, k, caps, s);
  }

  lemma SlotsRestored(a: seq<int>, b: seq<int>, c: seq<int>, end: nat, max: nat, top: nat, all: Groups, s: seq<byte>, n: nat, k: Kont, k': Kont, caps: Caps)
    requires Slots(a, end, max, top, all, s, k, caps) && Slots(b, end, max, top, all, s, k', caps) && Undone(a, c, max, top, k, s)
    requires end % 3 == 0 && max == 2 * end / 3 && |a| == |b| && 0 < n && 2 * n < max && end <= |a| && top % 2 == 0
    requires c == b[2 * n := a[2 * n]][2 * n + 1 := a[2 * n + 1]][end - n := a[end - n]]
    ensures Slots(c, end, max, top, all, s, k, caps)
  {
    hide Undone, Good, Starts, Shows;
    GoodRestored(a, b, c, max, top, all, s, n, end - n);
    SlotsBack(a, c, end, max, top, all, s, k, caps);
  }

  /** A group that does not capture leaves no slot of its own open. */
  lemma NotOpened(a: seq<int>, b: seq<int>, max: nat, top: nat, k: Kont, s: seq<byte>)
    requires k.In? && Undone(a, b, max, top, k, s) && (k.bra.Bra? && k.bra.cap > 0 ==> 2 * k.bra.cap >= max)
    ensures Undone(a, b, max, top, k.k, s)
  {}

  /** What is captured once the innermost open group is closed. */
  function Captures(k: Kont, caps: Caps, i: nat): Caps
    requires k.In? && k.bra.Bra?
  {
    if k.bra.cap > 0 then caps[k.bra.cap := (k.entry, i)] else caps
  }

  /** A group whose number is too high for the vector has no slots. */
  lemma SlotsFull(ov: seq<int>, end: nat, max: nat, top: nat, all: Groups, s: seq<byte>, k: Kont, caps: Caps, i: nat)
    requires Slots(ov, end, max, top, all, s, k, caps) && k.In? && k.bra.Bra? && k.bra.cap > 0 && 2 * k.bra.cap >= max
    ensures Slots(ov, end, max, top, all, s, k.k, Captures(k, caps, i))
  {
    hide Good;
  }

  lemma SlotsCapture(was: seq<int>, now: seq<int>, end: nat, max: nat, top: nat, top': nat, all: Groups, s: seq<byte>, k: Kont, caps: Caps, i: nat)
    requires Slots(was, end, max, top, all, s, k, caps) && k.In? && k.bra.Bra? && k.bra.cap > 0 && top % 2 == 0 && !IsOpen(k.k, k.bra.cap)
    requires end % 3 == 0 && max == 2 * end / 3 && end <= |was| == |now| && 2 * k.bra.cap < max
    requires AltsL(k.bra.alts, s, k.entry, i) && (k.bra.cap, k.bra.alts) in all
    requires top' == if top <= 2 * k.bra.cap then 2 * k.bra.cap + 2 else top
    requires var n := k.bra.cap;
             now[2 * n] == was[end - n] && now[2 * n + 1] == i &&
             forall x :: 0 <= x < |was| && x != 2 * n && x != 2 * n + 1 ==> now[x] == if top <= x < 2 * n then -1 else was[x]
    ensures Slots(now, end, max, top', all, s, k.k, Captures(k, caps, i)) && top' % 2 == 0 && Undone(was, now, max, top, k, s)
    ensures now[2 * k.bra.cap] == k.entry
  {
    hide AltsL, Shows;
    PairsSame(was, now, max, top, k.k, s);
    var n := k.bra.cap;
    assert was[end - n] == k.entry;
    assert Spanned(all, s, n, now[2 * n], now[2 * n + 1]);
    GoodCapture(was, now, max, top, top', all, s, n);
    StartsKept(was, now, end, max, k);
    ShowsCapture(was, now, max, top, top', k, caps, n, i);
    assert OpenSlot(k, max, 2 * n) && OpenSlot(k, max, 2 * n + 1);
  }

  class MatchData {
    const code: seq<int>
    const subject: seq<byte>
    const offset_vector: array<int>
    const offset_end: nat
    const offset_max: nat
    /** The capturing groups of the code. */
    ghost const groups: Groups
    var offset_overflow: bool
    var capture_last: int
    var end_match_ptr: nat
    var end_offset_top: nat
    /** True stands for MATCH_CBEGROUP. */
    var match_function_type: bool

    ghost predicate Valid() {
      offset_end % 3 == 0 && offset_max == 2 * offset_end / 3 && offset_end <= offset_vector.Length
    }

    /** There is room for the slots of every group. */
    ghost predicate Roomy() {
      forall g :: g in groups ==> 2 * g.0 < offset_max
    }

    /** The vector is used in thirds: two for data slots, one for working slots. */
    constructor (code: seq<int>, subject: seq<byte>, offsets: array<int>, ghost groups: Groups)
      ensures Valid() && this.code == code && this.subject == subject && offset_vector == offsets && this.groups == groups
      ensures offset_end == offsets.Length - offsets.Length % 3
      ensures !match_function_type && !offset_overflow
    {
      this.code, this.subject, this.offset_vector, this.groups := code, subject, offsets, groups;
      offset_end := offsets.Length - offsets.Length % 3;
      offset_max := 2 * (offsets.Length - offsets.Length % 3) / 3;
      offset_overflow, capture_last := false, -1;
      end_match_ptr, end_offset_top, match_function_type := 0, 0, false;
    }

    /** The slots below `top` are good, open groups know their start, and the
        slots show what is captured. */
    ghost predicate Tidy(top: nat, k: Kont, caps: Caps)
      reads offset_vector
    {
      top % 2 == 0 && Slots(offset_vector[..], offset_end, offset_max, top, groups, subject, k, caps)
    }

    /** After a match, every pair of slots that was reached is unset or holds a
        stretch that its group matches. */
    ghost predicate Told()
      reads this`end_offset_top, offset_vector
    {
      end_offset_top % 2 == 0 && Good(offset_vector[..], offset_max, end_offset_top, groups, subject)
    }

    /** MATCH reports the first of `tries`, with its captures in the slots;
        NOMATCH says that there are none. */
    ghost predicate Answers(rrc: int, tries: seq<At>)
      reads this`end_match_ptr, this`end_offset_top, offset_vector
    {
      if rrc == MATCH_MATCH then
        tries != [] && tries[0].p.i == end_match_ptr &&
        Shows(offset_vector[..], offset_max, end_offset_top, tries[0].p.caps, Stop)
      else tries == []
    }

    /** The first list decides, unless it is empty. */
    lemma FirstOf(rrc: int, a: seq<At>, b: seq<At>)
      requires Answers(rrc, a)
      ensures rrc == MATCH_MATCH ==> Answers(rrc, a + b)
      ensures rrc != MATCH_MATCH ==> a + b == b
    {}

    lemma NoneFound(tries: seq<At>)
      requires Answers(MATCH_NOMATCH, tries)
      ensures tries == []
    {}

    lemma NoTries()
      ensures Answers(MATCH_NOMATCH, [])
    {}

    lemma TidyTold(top: nat, eptr: nat, c: Chain, caps: Caps)
      requires Tidy(top, Stop, caps) && end_offset_top == top && end_match_ptr == eptr
      ensures Told() && Answers(MATCH_MATCH, Tries(Nil, Stop, subject, At(Pos(eptr, caps), c)))
    {
      TriesNil(Stop, subject, At(Pos(eptr, caps), c));
    }

    lemma TidyMeans(top: nat, k: Kont, caps: Caps)
      requires Tidy(top, k, caps)
      ensures top % 2 == 0 && Slots(offset_vector[..], offset_end, offset_max, top, groups, subject, k, caps)
    {}

    lemma TidyNow(top: nat, k: Kont, caps: Caps)
      requires top % 2 == 0 && Slots(offset_vector[..], offset_end, offset_max, top, groups, subject, k, caps)
      ensures Tidy(top, k, caps)
    {}

    /** Back from a failed call, the slots are as right as they were before. */
    lemma TidyBack(was: seq<int>, top: nat, k: Kont, caps: Caps, top': nat, k': Kont, caps': Caps)
      requires Valid() && Tidy(top', k', caps') && top <= top' && top % 2 == 0
      requires Slots(was, offset_end, offset_max, top, groups, subject, k, caps) && Undone(was, offset_vector[..], offset_max, top, k, subject)
      ensures Tidy(top, k, caps)
    {
      hide Undone, Starts, Shows;
      GoodLess(offset_vector[..], offset_max, top', top, groups, subject);
      SlotsBack(was, offset_vector[..], offset_end, offset_max, top, groups, subject, k, caps);
    }

    /** With a group's slots put back, they are as right as before it. */
    lemma TidyRestored(was: seq<int>, mid: seq<int>, n: nat, top: nat, k: Kont, k': Kont, caps: Caps)
      requires Valid() && top % 2 == 0 && |was| == |mid| == offset_vector.Length && 0 < n && 2 * n < offset_max
      requires Slots(was, offset_end, offset_max, top, groups, subject, k, caps) && Slots(mid, offset_end, offset_max, top, groups, subject, k', caps)
      requires offset_vector[..] == mid[2 * n := was[2 * n]][2 * n + 1 := was[2 * n + 1]][offset_end - n := was[offset_end - n]]
      requires Undone(was, offset_vector[..], offset_max, top, k, subject)
      ensures Tidy(top, k, caps)
    {
      hide Slots, Undone;
      SlotsRestored(was, mid, offset_vector[..], offset_end, offset_max, top, groups, subject, n, k, k', caps);
    }

    /** Out of a group without slots. */
    lemma TidyOuter(top: nat, k: Kont, caps: Caps)
      requires Tidy(top, k, caps) && k.In? && (k.bra.Bra? && k.bra.cap > 0 ==> 2 * k.bra.cap >= offset_max)
      ensures Tidy(top, k.k, caps)
    {}

    /** With the start of `bra` in its working slot, the slots are right inside it. */
    lemma TidyEnter(top: nat, bra: Item, gp: nat, i: nat, first: bool, rest: Branch, k: Kont, caps: Caps)
      requires Valid() && Tidy(top, k, caps) && bra.Bra? && (bra.cap > 0 ==> !IsOpen(k, bra.cap))
      ensures top % 2 == 0
      ensures var ov := offset_vector[..];
              Slots(if bra.cap > 0 && 2 * bra.cap < offset_max then ov[offset_end - bra.cap := i] else ov,
                    offset_end, offset_max, top, groups, subject, In(bra, gp, i, first, rest, k), caps)
    {
      SlotsEnter(offset_vector[..], offset_end, offset_max, top, groups, subject, bra, gp, i, first, rest, k, caps);
    }

    /** All that a call leads to, in order. */
    function From(tail: Branch, k: Kont, eptr: nat, caps: Caps, c: Chain): seq<At> {
      Tries(tail, k, subject, At(Pos(eptr, caps), c))
    }

    /** The chain a call works with: its own start is added for CBEGROUP. */
    function Pushed(eptrb: Chain, eptr: nat): Chain
      reads this`match_function_type
    {
      if match_function_type then Link(eptr, eptrb) else eptrb
    }

    lemma FromUnit(tail: Branch, k: Kont, eptr: nat, caps: Caps, c: Chain, x: Single, lo: nat, hi: int, lazy: bool)
      requires tail.Cons? && Repeats(tail.hd, x, lo, hi)
      requires tail.hd.Rep? && lo != hi && !IsPossessive(tail.hd) ==> lazy == tail.hd.lazy
      ensures From(tail, k, eptr, caps, c)
              == Bind(UnitO(IsPossessive(tail.hd), x, lo, hi, lazy, subject, Pos(eptr, caps)), Resume(tail.tl, k, subject, c))
    {
      if IsPossessive(tail.hd) {
        TriesPos(tail.hd, tail.tl, k, subject, At(Pos(eptr, caps), c));
      } else {
        TriesRep(tail.hd, tail.tl, k, subject, At(Pos(eptr, caps), c), x, lo, hi, lazy);
      }
    }

    lemma FromKet(k: Kont, eptr: nat, caps: Caps, c: Chain)
      requires k.In? && k.bra.Bra? && k.entry <= eptr <= |subject| && (IsMarked(k.bra) ==> c.Link?)
      requires IsLoop(k.bra) && k.entry == eptr ==> IsMarked(k.bra) && c.saved == eptr
      ensures var c' := if IsMarked(k.bra) then c.prev else c;
              var caps' := Captures(k, caps, eptr);
              var again := From(Cons(k.bra, k.rest), k.k, eptr, caps', if IsMarked(k.bra) then Link(eptr, c') else c');
              var leave := From(k.rest, k.k, eptr, caps', c');
              From(Nil, k, eptr, caps, c)
              == if !IsLoop(k.bra) || (IsMarked(k.bra) && eptr == c.saved) then leave
                 else if k.bra.ket.lazy then leave + again else again + leave
    {
      hide Tries;
      TriesKet(k, subject, eptr, caps, c);
    }

    method Match(eptr: nat, ecode: nat, offset_top: nat, eptrb: Chain, ghost tail: Branch, ghost k: Kont, ghost caps: Caps, ghost first: bool)
      returns (rrc: int)
      requires Valid() && Ready(code, |subject|, tail, k, ecode, eptr, Pushed(eptrb, eptr))
      requires first || (tail.Cons? && IsMarked(tail.hd))
      requires Underway(groups, tail, k, subject, eptr) && Tidy(offset_top, k, caps)
      modifies this, offset_vector
      ensures !match_function_type && (rrc == MATCH_MATCH || rrc == MATCH_NOMATCH)
      ensures Answers(rrc, From(tail, k, eptr, caps, old(Pushed(eptrb, eptr))))
      ensures Roomy() ==> offset_overflow == old(offset_overflow)
      ensures (rrc == MATCH_MATCH ==> Told()) && (rrc == MATCH_NOMATCH ==> Tidy(offset_top, k, caps))
      ensures rrc == MATCH_MATCH ==> ReachS(tail, k, subject, eptr, end_match_ptr)
      ensures rrc == MATCH_NOMATCH && (first ==> NoFalseStart(old(Pushed(eptrb, eptr)), k, eptr)) ==>
                Lost(first, tail, ecode, k, subject, eptr)
      ensures rrc == MATCH_NOMATCH ==> Undone(old(offset_vector[..]), offset_vector[..], offset_max, offset_top, k, subject)
      decreases |subject| - eptr, Steps(tail, k, eptr), 3
    {
      hide Underway, Roomy, Tidy, Told, Answers, Tries, Undone, PairsLeft, NoFalseStart, Dead, HeadOp, WFItem, Steps, ItemAt, KontAt, Safe;
      var chain := eptrb;
      if match_function_type {
        chain := Link(eptr, eptrb);
        match_function_type := false;
      }
      OpAt(code, |subject|, tail, k, ecode, eptr, chain);
      if tail.Cons? { HeadKinds(tail.hd); }
      var op := code[ecode];
      if op == OP_END {
        end_match_ptr := eptr;
        end_offset_top := offset_top;
        TidyTold(offset_top, eptr, chain, caps);
        rrc := MATCH_MATCH;
        assert BranchL(tail, subject, eptr, eptr);
      } else if OP_ALT <= op <= OP_KETRMIN {
        rrc := MatchKet(eptr, ecode, offset_top, chain, k, caps);
      } else if op == OP_BRAZERO || op == OP_BRAMINZERO {
        rrc := MatchBraZero(eptr, ecode, offset_top, chain, tail, k, caps);
      } else if op == OP_BRA || op == OP_SBRA || op == OP_CBRA || op == OP_SCBRA {
        rrc := MatchBra(eptr, ecode, offset_top, chain, tail, k, caps, first);
      } else if IsZeroOp(op) {
        rrc := MatchZero(eptr, ecode, offset_top, chain, tail, k, caps);
      } else {
        rrc := MatchSingle(eptr, ecode, offset_top, chain, tail, k, caps);
      }
    }

    method MatchZero(eptr: nat, ecode: nat, offset_top: nat, eptrb: Chain, ghost tail: Branch, ghost k: Kont, ghost caps: Caps)
      returns (rrc: int)
      requires Valid() && !match_function_type && Ready(code, |subject|, tail, k, ecode, eptr, eptrb)
      requires tail.Cons? && tail.hd.Zero? && ecode < |code| && code[ecode] == tail.hd.op
      requires Underway(groups, tail, k, subject, eptr) && Tidy(offset_top, k, caps)
      modifies this, offset_vector
      ensures !match_function_type && (rrc == MATCH_MATCH || rrc == MATCH_NOMATCH)
      ensures Answers(rrc, From(tail, k, eptr, caps, eptrb))
      ensures Roomy() ==> offset_overflow == old(offset_overflow)
      ensures (rrc == MATCH_MATCH ==> Told()) && (rrc == MATCH_NOMATCH ==> Tidy(offset_top, k, caps))
      ensures rrc == MATCH_MATCH ==> ReachS(tail, k, subject, eptr, end_match_ptr)
      ensures rrc == MATCH_NOMATCH && NoFalseStart(eptrb, k, eptr) ==> Dead(tail, k, subject, eptr)
      ensures rrc == MATCH_NOMATCH ==> Undone(old(offset_vector[..]), offset_vector[..], offset_max, offset_top, k, subject)
      decreases |subject| - eptr, Steps(tail, k, eptr), 2
    {
      hide Underway, Roomy, Tidy, Told, Answers, Tries, Ready, ReachS, Dead, NoFalseStart, Undone, Steps, ItemL, ZeroHolds;
      ReadyBound(code, |subject|, tail, k, ecode, eptr, eptrb);
      ZeroL(tail.hd, subject, eptr);
      TriesZero(tail.hd, tail.tl, k, subject, At(Pos(eptr, caps), eptrb));
      if !ZeroHolds(code[ecode], subject, eptr) {
        UndoneRefl(offset_vector[..], offset_max, offset_top, k, subject);
        NoSuccessor(tail.hd, tail.tl, k, subject, eptr);
        NoTries();
        return MATCH_NOMATCH;
      }
      ReadySkip(code, |subject|, tail, k, ecode, eptr, eptrb);
      UnderwayAfter(groups, tail, k, subject, eptr, eptr);
      rrc := Match(eptr, ecode + 1, offset_top, eptrb, tail.tl, k, caps, true);
      if rrc == MATCH_MATCH {
        ConsS(tail.hd, tail.tl, k, subject, eptr, eptr, end_match_ptr);
      } else if NoFalseStart(eptrb, k, eptr) {
        assert Dead(tail.tl, k, subject, eptr);
        NoSuccessor(tail.hd, tail.tl, k, subject, eptr);
      }
    }

    /** A zero-repeat group: the group or what follows it, in either order. */
    method MatchBraZero(eptr: nat, ecode: nat, offset_top: nat, eptrb: Chain, ghost tail: Branch, ghost k: Kont, ghost caps: Caps)
      returns (rrc: int)
      requires Valid() && !match_function_type && Ready(code, |subject|, tail, k, ecode, eptr, eptrb)
      requires tail.Cons? && tail.hd.BraZero?
      requires Underway(groups, tail, k, subject, eptr) && Tidy(offset_top, k, caps)
      modifies this, offset_vector
      ensures !match_function_type && (rrc == MATCH_MATCH || rrc == MATCH_NOMATCH)
      ensures Answers(rrc, From(tail, k, eptr, caps, eptrb))
      ensures Roomy() ==> offset_overflow == old(offset_overflow)
      ensures (rrc == MATCH_MATCH ==> Told()) && (rrc == MATCH_NOMATCH ==> Tidy(offset_top, k, caps))
      ensures rrc == MATCH_MATCH ==> ReachS(tail, k, subject, eptr, end_match_ptr)
      ensures rrc == MATCH_NOMATCH && NoFalseStart(eptrb, k, eptr) ==> Dead(tail, k, subject, eptr)
      ensures rrc == MATCH_NOMATCH ==> Undone(old(offset_vector[..]), offset_vector[..], offset_max, offset_top, k, subject)
      decreases |subject| - eptr, Steps(tail, k, eptr), 2
    {
      hide Underway, Roomy, Tidy, Told, Answers, Tries, Ready, Steps, ReachS, Dead, NoFalseStart, Undone, ItemAt, ItemSize;
      ghost var inner := Cons(tail.hd.bra, tail.tl);
      BraZeroReady(code, |subject|, tail, k, ecode, eptr, eptrb);
      UnderwayZero(groups, tail, k, subject, eptr);
      ReadyBound(code, |subject|, tail, k, ecode, eptr, eptrb);
      BraZeroL(tail.hd, subject, eptr, eptr);
      UnderwayAfter(groups, tail, k, subject, eptr, eptr);
      BraParts(code, ecode + 1, tail.hd.bra);
      ItemOp(code, ecode, tail.hd) by { OpAt(code, |subject|, tail, k, ecode, eptr, eptrb); }
      TriesBraZero(tail.hd, tail.tl, k, subject, At(Pos(eptr, caps), eptrb));
      var next := SkipAlts(ecode + 1, tail.hd.bra);
      if code[ecode] == OP_BRAZERO {
        rrc := TryBoth(eptr, ecode + 1, next + 1 + LINK_SIZE, offset_top, eptrb, inner, tail.tl, k, caps, tail);
      } else {
        rrc := TryBoth(eptr, next + 1 + LINK_SIZE, ecode + 1, offset_top, eptrb, tail.tl, inner, k, caps, tail);
      }
      if rrc == MATCH_MATCH {
        BraZeroS(tail, k, subject, eptr, end_match_ptr);
      } else if NoFalseStart(eptrb, k, eptr) {
        NoZeroOrMore(tail, k, subject, eptr);
      }
    }

    /** One way on, and if that fails the other. */
    method TryBoth(eptr: nat, ecode1: nat, ecode2: nat, offset_top: nat, eptrb: Chain,
                   ghost tail1: Branch, ghost tail2: Branch, ghost k: Kont, ghost caps: Caps, ghost tail: Branch)
      returns (rrc: int)
      requires Valid() && !match_function_type
      requires Ready(code, |subject|, tail1, k, ecode1, eptr, eptrb)
      requires Ready(code, |subject|, tail2, k, ecode2, eptr, eptrb)
      requires Steps(tail1, k, eptr) < Steps(tail, k, eptr) && Steps(tail2, k, eptr) < Steps(tail, k, eptr)
      requires Underway(groups, tail1, k, subject, eptr) && Underway(groups, tail2, k, subject, eptr) && Tidy(offset_top, k, caps)
      modifies this, offset_vector
      ensures !match_function_type && (rrc == MATCH_MATCH || rrc == MATCH_NOMATCH)
      ensures Answers(rrc, From(tail1, k, eptr, caps, eptrb) + From(tail2, k, eptr, caps, eptrb))
      ensures Roomy() ==> offset_overflow == old(offset_overflow)
      ensures (rrc == MATCH_MATCH ==> Told()) && (rrc == MATCH_NOMATCH ==> Tidy(offset_top, k, caps))
      ensures rrc == MATCH_MATCH ==>
                ReachS(tail1, k, subject, eptr, end_match_ptr) || ReachS(tail2, k, subject, eptr, end_match_ptr)
      ensures rrc == MATCH_NOMATCH && NoFalseStart(eptrb, k, eptr) ==>
                Dead(tail1, k, subject, eptr) && Dead(tail2, k, subject, eptr)
      ensures rrc == MATCH_NOMATCH ==> Undone(old(offset_vector[..]), offset_vector[..], offset_max, offset_top, k, subject)
      decreases |subject| - eptr, Steps(tail, k, eptr), 1
    {
      hide Underway, Roomy, Tidy, Told, Answers, Tries, Ready, Steps, ReachS, Dead, NoFalseStart, Undone;
      rrc := Match(eptr, ecode1, offset_top, eptrb, tail1, k, caps, true);
      FirstOf(rrc, From(tail1, k, eptr, caps, eptrb), From(tail2, k, eptr, caps, eptrb));
      if rrc == MATCH_NOMATCH {
        ghost var mid := offset_vector[..];
        rrc := Match(eptr, ecode2, offset_top, eptrb, tail2, k, caps, true);
        if rrc == MATCH_NOMATCH {
          UndoneTrans(old(offset_vector[..]), mid, offset_vector[..], offset_max, offset_top, k, subject);
        }
      }
    }

    /** The links from the bracket at `next` lead to its ket. */
    method SkipAlts(start: nat, ghost bra: Item) returns (next: nat)
      requires bra.Bra? && ItemAt(code, start, bra)
      ensures next == start + AltsSize(HeadSize(bra.cap), bra.alts)
    {
      hide AltsAt, AltsSize, ItemAt, Get, HeadSize;
      next := start;
      BraParts(code, start, bra);
      BraHeaders(code, start, bra);
      ghost var h: nat, a := HeadSize(bra.cap), bra.alts;
      while true
        invariant AltsAt(code, next, h, a) && next + AltsSize(h, a) < |code| && code[next + AltsSize(h, a)] != OP_ALT
        invariant next + AltsSize(h, a) == start + AltsSize(HeadSize(bra.cap), bra.alts)
        decreases a
      {
        HeaderStep(code, next, h, a);
        next := next + Get(code, next + 1);
        if code[next] != OP_ALT { break; }
        h, a := 1 + LINK_SIZE, a.rest;
      }
    }

    /** A bracket: its branches in order, with the position remembered in the
        group's working slot when there is room for it. */
    method MatchBra(eptr: nat, ecode: nat, offset_top: nat, eptrb: Chain, ghost tail: Branch, ghost k: Kont, ghost caps: Caps, ghost first: bool)
      returns (rrc: int)
      requires Valid() && !match_function_type && Ready(code, |subject|, tail, k, ecode, eptr, eptrb)
      requires tail.Cons? && tail.hd.Bra? && (first || IsMarked(tail.hd))
      requires Underway(groups, tail, k, subject, eptr) && Tidy(offset_top, k, caps)
      modifies this, offset_vector
      ensures !match_function_type && (rrc == MATCH_MATCH || rrc == MATCH_NOMATCH)
      ensures Answers(rrc, From(tail, k, eptr, caps, eptrb))
      ensures Roomy() ==> offset_overflow == old(offset_overflow)
      ensures (rrc == MATCH_MATCH ==> Told()) && (rrc == MATCH_NOMATCH ==> Tidy(offset_top, k, caps))
      ensures rrc == MATCH_MATCH ==> ReachS(tail, k, subject, eptr, end_match_ptr)
      ensures rrc == MATCH_NOMATCH && (first ==> NoFalseStart(eptrb, k, eptr)) ==> Lost(first, tail, ecode, k, subject, eptr)
      ensures rrc == MATCH_NOMATCH ==> Undone(old(offset_vector[..]), offset_vector[..], offset_max, offset_top, k, subject)
      decreases |subject| - eptr, Steps(tail, k, eptr), 2
    {
      hide Underway, Roomy, Tidy, Told, Answers, Tries, Ready, Lost, ReachS, NoFalseStart, Undone, PairsLeft, Steps, Slots, Get, BraOp, WFItem, ItemAt, IsOpen, ItemSize;
      BraHead(code, |subject|, tail, k, ecode, eptr, eptrb);
      ghost var k' := In(tail.hd, ecode, eptr, first, tail.tl, k);
      CapShut(groups, tail, k, subject, eptr);
      var op := code[ecode];
      if op == OP_CBRA || op == OP_SCBRA {
        var number := Get(code, ecode + 1 + LINK_SIZE);
        var offset := 2 * number;
        if offset < offset_max {
          rrc := MatchCapturing(eptr, ecode, offset_top, eptrb, number, tail, k, caps, first);
          return;
        }
        TidyEnter(offset_top, tail.hd, ecode, eptr, first, tail.tl, k, caps);
        TidyNow(offset_top, k', caps);
        rrc := MatchBranches(eptr, ecode, offset_top, eptrb, 3 + LINK_SIZE, tail, k, caps, first);
      } else {
        TidyEnter(offset_top, tail.hd, ecode, eptr, first, tail.tl, k, caps);
        TidyNow(offset_top, k', caps);
        rrc := MatchBranches(eptr, ecode, offset_top, eptrb, 1 + LINK_SIZE, tail, k, caps, first);
      }
      if rrc == MATCH_NOMATCH {
        TidyOuter(offset_top, k', caps);
        NotOpened(old(offset_vector[..]), offset_vector[..], offset_max, offset_top, k', subject);
      }
    }

    /** Its working slot lies behind all data slots. */
    lemma SlotsThere(number: nat)
      requires Valid() && 0 < 2 * number < offset_max
      ensures offset_max % 2 == 0 && 2 * number + 1 < offset_max <= offset_end - number < offset_vector.Length
    {
      var q := offset_end / 3;
      assert offset_end == 3 * q && offset_max == 2 * q;
    }

    /** A capturing bracket with slots: they are put back when all branches fail. */
    method MatchCapturing(eptr: nat, ecode: nat, offset_top: nat, eptrb: Chain, number: nat, ghost tail: Branch, ghost k: Kont, ghost caps: Caps, ghost first: bool)
      returns (rrc: int)
      requires Valid() && !match_function_type && Ready(code, |subject|, tail, k, ecode, eptr, eptrb)
      requires tail.Cons? && tail.hd.Bra? && (first || IsMarked(tail.hd))
      requires number == tail.hd.cap > 0 && 2 * number < offset_max
      requires Underway(groups, tail, k, subject, eptr) && Tidy(offset_top, k, caps)
      modifies this, offset_vector
      ensures !match_function_type && (rrc == MATCH_MATCH || rrc == MATCH_NOMATCH)
      ensures Answers(rrc, From(tail, k, eptr, caps, eptrb))
      ensures Roomy() ==> offset_overflow == old(offset_overflow)
      ensures (rrc == MATCH_MATCH ==> Told()) && (rrc == MATCH_NOMATCH ==> Tidy(offset_top, k, caps))
      ensures rrc == MATCH_MATCH ==> ReachS(tail, k, subject, eptr, end_match_ptr)
      ensures rrc == MATCH_NOMATCH && (first ==> NoFalseStart(eptrb, k, eptr)) ==> Lost(first, tail, ecode, k, subject, eptr)
      ensures rrc == MATCH_NOMATCH ==> Undone(old(offset_vector[..]), offset_vector[..], offset_max, offset_top, k, subject)
      decreases |subject| - eptr, Steps(tail, k, eptr), 1
    {
      hide Valid, Underway, Roomy, Tidy, Told, Answers, Tries, Ready, Lost, ReachS, NoFalseStart, Undone, PairsLeft, Steps, Slots, Get, BraOp, WFItem, ItemAt, IsOpen, ItemSize;
      SlotsThere(number);
      CapShut(groups, tail, k, subject, eptr);
      CapHead(tail);
      var offset := 2 * number;
      ghost var k' := In(tail.hd, ecode, eptr, first, tail.tl, k);
      ghost var was := offset_vector[..];
      TidyMeans(offset_top, k, caps);
      var save_offset1 := offset_vector[offset];
      var save_offset2 := offset_vector[offset + 1];
      var save_offset3 := offset_vector[offset_end - number];
      var save_capture_last := capture_last;
      TidyEnter(offset_top, tail.hd, ecode, eptr, first, tail.tl, k, caps);
      offset_vector[offset_end - number] := eptr;
      TidyNow(offset_top, k', caps);
      rrc := MatchBranches(eptr, ecode, offset_top, eptrb, 3 + LINK_SIZE, tail, k, caps, first);
      if rrc == MATCH_NOMATCH {
        ghost var mid := offset_vector[..];
        NoneFound(From(tail, k, eptr, caps, eptrb));
        TidyMeans(offset_top, k', caps);
        capture_last := save_capture_last;
        PutBack(offset, offset_end - number, save_offset1, save_offset2, save_offset3);
        CapShut(groups, tail, k, subject, eptr);
        UndoneRestored(was, mid, offset_vector[..], offset_max, offset_top, k', offset_end - number, eptr, subject);
        TidyRestored(was, mid, number, offset_top, k, k', caps);
        NoTries();
      }
    }

    method PutBack(offset: nat, working: nat, save_offset1: int, save_offset2: int, save_offset3: int)
      requires offset + 1 < offset_vector.Length && working < offset_vector.Length
      modifies offset_vector
      ensures offset_vector[..] == old(offset_vector[..])[offset := save_offset1][offset + 1 := save_offset2][working := save_offset3]
    {
      offset_vector[offset] := save_offset1;
      offset_vector[offset + 1] := save_offset2;
      offset_vector[working] := save_offset3;
    }

    /** The loop over the alternatives. */
    method MatchBranches(eptr: nat, ecode: nat, offset_top: nat, eptrb: Chain, head: nat,
                         ghost tail: Branch, ghost k: Kont, ghost caps: Caps, ghost first: bool)
      returns (rrc: int)
      requires Valid() && !match_function_type && Ready(code, |subject|, tail, k, ecode, eptr, eptrb)
      requires tail.Cons? && tail.hd.Bra? && (first || IsMarked(tail.hd)) && head == HeadSize(tail.hd.cap)
      requires Underway(groups, tail, k, subject, eptr) && Tidy(offset_top, In(tail.hd, ecode, eptr, first, tail.tl, k), caps)
      modifies this, offset_vector
      ensures !match_function_type && (rrc == MATCH_MATCH || rrc == MATCH_NOMATCH)
      ensures Answers(rrc, From(tail, k, eptr, caps, eptrb))
      ensures Roomy() ==> offset_overflow == old(offset_overflow)
      ensures (rrc == MATCH_MATCH ==> Told()) && (rrc == MATCH_NOMATCH ==> Tidy(offset_top, In(tail.hd, ecode, eptr, first, tail.tl, k), caps))
      ensures rrc == MATCH_MATCH ==> ReachS(tail, k, subject, eptr, end_match_ptr)
      ensures rrc == MATCH_NOMATCH && (first ==> NoFalseStart(eptrb, k, eptr)) ==>
                Lost(first, tail, ecode, k, subject, eptr)
      ensures rrc == MATCH_NOMATCH ==>
                Undone(old(offset_vector[..]), offset_vector[..], offset_max, offset_top, In(tail.hd, ecode, eptr, first, tail.tl, k), subject)
      decreases |subject| - eptr, Steps(tail, k, eptr), 0
    {
      hide Underway, Roomy, Tidy, Told, Answers, Tries, Ready, Steps, ReachS, Dead, NoFalseStart, Undone, ItemAt, AltsAt, AltsDead, AltsTries, IsSuffix, AltsSize, WFAlts, WFItem, HeadOp, BraOp, Get, PairsLeft, Captures;
      OpAt(code, |subject|, tail, k, ecode, eptr, eptrb);
      BraParts(code, ecode, tail.hd);
      BraOps(tail.hd);
      ghost var k' := In(tail.hd, ecode, eptr, first, tail.tl, k);
      ghost var was := offset_vector[..];
      ghost var sure := first ==> NoFalseStart(eptrb, k, eptr);
      var op := code[ecode];
      var pc: nat, h: nat := ecode, head;
      ghost var a := tail.hd.alts;
      SuffixSelf(ecode, head, a);
      UndoneRefl(was, offset_max, offset_top, k', subject);
      TriesEnter(tail, k, ecode, first, subject, At(Pos(eptr, caps), eptrb));
      while true
        invariant Roomy() ==> offset_overflow == old(offset_overflow)
        invariant !match_function_type
        invariant IsSuffix(ecode, head, tail.hd.alts, pc, h, a)
        invariant Undone(was, offset_vector[..], offset_max, offset_top, k', subject) && Tidy(offset_top, k', caps)
        invariant From(tail, k, eptr, caps, eptrb) == AltsTries(a, k', subject, At(Pos(eptr, caps), Entered(tail.hd, eptrb, eptr)))
        invariant sure && AltsDead(a, k', subject, eptr) ==> AltsDead(tail.hd.alts, k', subject, eptr)
        decreases a
      {
        SuffixMove(code, |subject|, tail, k, ecode, eptr, eptrb, pc, h, a);
        ReadyEnter(code, |subject|, tail, k, ecode, eptr, eptrb, first, pc, h, a);
        UnderwayEnter(groups, tail, k, subject, eptr, ecode, first, pc, h, a);
        ghost var mid := offset_vector[..];
        match_function_type := op >= OP_SBRA;
        rrc := Match(eptr, pc + h, offset_top, eptrb, a.b, k', caps, true);
        AltsTriesSplit(a, k', subject, At(Pos(eptr, caps), Entered(tail.hd, eptrb, eptr)));
        FirstOf(rrc, From(a.b, k', eptr, caps, Entered(tail.hd, eptrb, eptr)),
                if a.More? then AltsTries(a.rest, k', subject, At(Pos(eptr, caps), Entered(tail.hd, eptrb, eptr))) else []);
        if rrc == MATCH_MATCH {
          EnterS(tail.hd, tail.tl, k, ecode, first, pc, h, a, subject, eptr, end_match_ptr);
          return;
        }
        UndoneTrans(was, mid, offset_vector[..], offset_max, offset_top, k', subject);
        if sure {
          NoBranchYet(a, k', subject, eptr);
        }
        pc := pc + Get(code, pc + 1);
        if code[pc] != OP_ALT { break; }
        h, a := 1 + LINK_SIZE, a.rest;
      }
      if sure {
        NoEntry(first, tail, k, ecode, subject, eptr);
      }
    }

    /** The end of a group: record a capture, then leave or repeat. */
    method MatchKet(eptr: nat, ecode: nat, offset_top: nat, eptrb: Chain, ghost k: Kont, ghost caps: Caps)
      returns (rrc: int)
      requires Valid() && !match_function_type && Ready(code, |subject|, Nil, k, ecode, eptr, eptrb)
      requires k.In?
      requires Underway(groups, Nil, k, subject, eptr) && Tidy(offset_top, k, caps)
      modifies this, offset_vector
      ensures !match_function_type && (rrc == MATCH_MATCH || rrc == MATCH_NOMATCH)
      ensures Answers(rrc, From(Nil, k, eptr, caps, eptrb))
      ensures Roomy() ==> offset_overflow == old(offset_overflow)
      ensures (rrc == MATCH_MATCH ==> Told()) && (rrc == MATCH_NOMATCH ==> Tidy(offset_top, k, caps))
      ensures rrc == MATCH_MATCH ==> ReachS(Nil, k, subject, eptr, end_match_ptr)
      ensures rrc == MATCH_NOMATCH && NoFalseStart(eptrb, k, eptr) ==> Dead(Nil, k, subject, eptr)
      ensures rrc == MATCH_NOMATCH && k.bra.Bra? && k.bra.cap > 0 && 2 * k.bra.cap < offset_max ==>
                var n := 2 * k.bra.cap;
                && offset_vector[n] == k.entry && offset_vector[n + 1] == eptr
                && (offset_vector[n] == old(offset_vector[n]) && offset_vector[n + 1] == old(offset_vector[n + 1]) <==>
                    old(offset_vector[n]) == k.entry && old(offset_vector[n + 1]) == eptr)
      ensures rrc == MATCH_NOMATCH ==> Undone(old(offset_vector[..]), offset_vector[..], offset_max, offset_top, k, subject)
      decreases |subject| - eptr, Steps(Nil, k, eptr), 2
    {
      hide Underway, Roomy, Tidy, Told, Answers, From, Ready, Steps, ReachS, Dead, NoFalseStart, Undone, BraOp, KetOp, ItemAt, ItemSize, Slots, AltsL, AltsAt, AltsSize, EndsBranch, WFItem, Get;
      ReadyKet(code, |subject|, k, ecode, eptr, eptrb);
      TidyMeans(offset_top, k, caps);
      var pc := FindKet(ecode, k.gp, HeadSize(k.bra.cap), k.bra.alts) by { BraParts(code, k.gp, k.bra); BraOps(k.bra); }
      BraOps(k.bra);
      var prev := pc - Get(code, pc + 1);
      assert prev == k.gp;
      var top := offset_top;
      var chain := eptrb;
      var unmoved := false;
      if code[prev] >= OP_SBRA {
        unmoved := eptr == eptrb.saved;
        chain := eptrb.prev;
      }
      ghost var was := offset_vector[..];
      ReadyBound(code, |subject|, Nil, k, ecode, eptr, eptrb);
      UnderwayMatched(groups, k, subject, eptr);
      CapClosed(groups, k, subject, eptr);
      if code[prev] == OP_CBRA || code[prev] == OP_SCBRA {
        top := Capture(Get(code, prev + 1 + LINK_SIZE), eptr, offset_top, k, caps);
      } else {
        UndoneRefl(was, offset_max, offset_top, k, subject);
        TidyOuter(offset_top, k, caps);
        assert Captures(k, caps, eptr) == caps;
      }
      ghost var mid := offset_vector[..];
      rrc := LeaveOrRepeat(eptr, pc, top, eptrb, chain, unmoved, ecode, k, caps);
      if rrc == MATCH_NOMATCH {
        UndoneOuter(mid, offset_vector[..], offset_max, top, k, subject);
        UndoneTop(mid, offset_vector[..], offset_max, offset_top, top, k, subject);
        UndoneTrans(was, mid, offset_vector[..], offset_max, offset_top, k, subject);
        TidyBack(was, offset_top, k, caps, top, k.k, Captures(k, caps, eptr));
      }
    }

    /** From the end of a branch along the ALT links to the ket. */
    method FindKet(ecode: nat, ghost p: nat, ghost h: nat, ghost a: Alts) returns (pc: nat)
      requires AltsAt(code, p, h, a) && EndsBranch(p, h, a, ecode)
      requires p + AltsSize(h, a) < |code| && code[p + AltsSize(h, a)] != OP_ALT
      ensures pc == p + AltsSize(h, a)
    {
      hide EndsBranch, AltsAt, AltsSize, Get;
      pc := ecode;
      EndStep(code, p, h, a, pc);
      while code[pc] == OP_ALT
        invariant pc <= p + AltsSize(h, a) && EndsBranch(p, h, a, pc)
        decreases |code| - pc
      {
        EndStep(code, p, h, a, pc);
        pc := pc + Get(code, pc + 1);
        EndStep(code, p, h, a, pc);
      }
      EndStep(code, p, h, a, pc);
    }

    /** Complete the capture of group `number`; slots passed over are unset. */
    method Capture(number: nat, eptr: nat, offset_top: nat, ghost k: Kont, ghost caps: Caps) returns (top: nat)
      requires Valid() && k.In? && k.bra.Bra? && number == k.bra.cap > 0 && Tidy(offset_top, k, caps)
      requires AltsL(k.bra.alts, subject, k.entry, eptr) && (k.bra.cap, k.bra.alts) in groups && !IsOpen(k.k, k.bra.cap)
      modifies `capture_last, `offset_overflow, offset_vector
      ensures Roomy() ==> offset_overflow == old(offset_overflow)
      ensures top == if offset_top <= 2 * number < offset_max then 2 * number + 2 else offset_top
      ensures Undone(old(offset_vector[..]), offset_vector[..], offset_max, offset_top, k, subject)
      ensures Tidy(top, k.k, Captures(k, caps, eptr))
      ensures 2 * number < offset_max ==> offset_vector[2 * number] == k.entry && offset_vector[2 * number + 1] == eptr
    {
      hide AltsL, Tidy, Slots, Good, Starts;
      ghost var was := offset_vector[..];
      TidyMeans(offset_top, k, caps);
      top := offset_top;
      var offset := 2 * number;
      capture_last := number;
      if offset >= offset_max {
        offset_overflow := true;
        UndoneRefl(was, offset_max, offset_top, k, subject);
        SlotsFull(was, offset_end, offset_max, top, groups, subject, k, caps, eptr);
        TidyNow(offset_top, k.k, Captures(k, caps, eptr));
      } else {
        Unset(offset_top, offset);
        offset_vector[offset] := offset_vector[offset_end - number];
        offset_vector[offset + 1] := eptr;
        if offset_top <= offset { top := offset + 2; }
        SlotsCapture(was, offset_vector[..], offset_end, offset_max, offset_top, top, groups, subject, k, caps, eptr);
        TidyNow(top, k.k, Captures(k, caps, eptr));
      }
    }

    /** Set the slots from `from` up to `to` to -1. */
    method Unset(from: nat, to: nat)
      requires to <= offset_vector.Length
      modifies offset_vector
      ensures forall y :: 0 <= y < offset_vector.Length ==> offset_vector[y] == if from <= y < to then -1 else old(offset_vector[y])
    {
      var iptr := from;
      while iptr < to
        invariant from <= iptr
        invariant forall y :: 0 <= y < offset_vector.Length ==> offset_vector[y] == if from <= y < iptr && y < to then -1 else old(offset_vector[y])
      {
        offset_vector[iptr] := -1;
        iptr := iptr + 1;
      }
    }

    /** Past a plain ket, or one whose group consumed nothing, go on; at a
        repeating ket also try the group again, first if it is greedy. */
    method LeaveOrRepeat(eptr: nat, pc: nat, offset_top: nat, ghost eptrb: Chain, chain: Chain, unmoved: bool,
                         ghost ecode: nat, ghost k: Kont, ghost caps: Caps)
      returns (rrc: int)
      requires Valid() && !match_function_type && Ready(code, |subject|, Nil, k, ecode, eptr, eptrb)
      requires k.In? && k.bra.Bra? && pc == k.gp + AltsSize(HeadSize(k.bra.cap), k.bra.alts)
      requires IsMarked(k.bra) ==> eptrb.Link?
      requires chain == if IsMarked(k.bra) then eptrb.prev else eptrb
      requires unmoved == (IsMarked(k.bra) && eptr == eptrb.saved)
      requires Underway(groups, Nil, k, subject, eptr) && Tidy(offset_top, k.k, Captures(k, caps, eptr))
      modifies this, offset_vector
      ensures !match_function_type && (rrc == MATCH_MATCH || rrc == MATCH_NOMATCH)
      ensures Answers(rrc, From(Nil, k, eptr, caps, eptrb))
      ensures Roomy() ==> offset_overflow == old(offset_overflow)
      ensures (rrc == MATCH_MATCH ==> Told()) && (rrc == MATCH_NOMATCH ==> Tidy(offset_top, k.k, Captures(k, caps, eptr)))
      ensures rrc == MATCH_MATCH ==> ReachS(Nil, k, subject, eptr, end_match_ptr)
      ensures rrc == MATCH_NOMATCH && NoFalseStart(eptrb, k, eptr) ==> Dead(Nil, k, subject, eptr)
      ensures rrc == MATCH_NOMATCH ==> Undone(old(offset_vector[..]), offset_vector[..], offset_max, offset_top, k.k, subject)
      decreases |subject| - eptr, Steps(Nil, k, eptr), 1
    {
      hide Underway, Roomy, Tidy, Told, Answers, From, Captures, Ready, Steps, ReachS, Dead, NoFalseStart, Undone, BraOp, KetOp, WFItem, Get, Slots, ItemAt, AltsSize, HeadSize, EndsBranch;
      ReadyKet(code, |subject|, k, ecode, eptr, eptrb);
      ReadyLeave(code, |subject|, k, ecode, eptr, eptrb);
      BraParts(code, k.gp, k.bra);
      BraOps(k.bra);
      ReadyBound(code, |subject|, Nil, k, ecode, eptr, eptrb);
      UnderwayLeave(groups, k, subject, eptr);
      FromKet(k, eptr, caps, eptrb);
      ghost var caps' := Captures(k, caps, eptr);
      ghost var again := From(Cons(k.bra, k.rest), k.k, eptr, caps', if IsMarked(k.bra) then Link(eptr, chain) else chain);
      ghost var leave := From(k.rest, k.k, eptr, caps', chain);
      ghost var was := offset_vector[..];
      var prev := pc - Get(code, pc + 1);
      if code[pc] == OP_KET || unmoved {
        rrc := Match(eptr, pc + 1 + LINK_SIZE, offset_top, chain, k.rest, k.k, caps', true);
      } else {
        ReadyAgain(code, |subject|, k, ecode, eptr, eptrb);
        if code[pc] == OP_KETRMIN {
          rrc := Match(eptr, pc + 1 + LINK_SIZE, offset_top, chain, k.rest, k.k, caps', true);
        } else {
          match_function_type := code[prev] >= OP_SBRA;
          rrc := Match(eptr, prev, offset_top, chain, Cons(k.bra, k.rest), k.k, caps', !IsMarked(k.bra));
        }
        FirstOf(rrc, if code[pc] == OP_KETRMIN then leave else again, if code[pc] == OP_KETRMIN then again else leave);
        if rrc == MATCH_NOMATCH {
          ghost var mid := offset_vector[..];
          if code[pc] == OP_KETRMIN {
            match_function_type := code[prev] >= OP_SBRA;
            rrc := Match(eptr, prev, offset_top, chain, Cons(k.bra, k.rest), k.k, caps', !IsMarked(k.bra));
          } else {
            rrc := Match(eptr, pc + 1 + LINK_SIZE, offset_top, chain, k.rest, k.k, caps', true);
          }
          if rrc == MATCH_NOMATCH {
            UndoneTrans(was, mid, offset_vector[..], offset_max, offset_top, k.k, subject);
          }
        }
      }
      if rrc == MATCH_MATCH {
        KetS(k, subject, eptr, end_match_ptr);
      } else {
        if NoFalseStart(eptrb, k, eptr) {
          NoWayOut(k, subject, eptr);
        }
      }
    }

    /** One byte, or a repeat of one: how often, of what, and where the code goes on. */
    method Decode(ecode: nat, ghost it: Item)
      returns (x: Single, lo: nat, hi: int, minimize: bool, possessive: bool, next: nat)
      requires (it.One? || it.Rep?) && WFItem(it) && ItemAt(code, ecode, it)
      requires ecode + ItemSize(it) < |code| && !(OP_CRSTAR <= code[ecode + ItemSize(it)] <= OP_CRMINRANGE)
      ensures WFSingle(x) && Repeats(it, x, lo, hi) && next == ecode + ItemSize(it)
      ensures it.Rep? && lo != hi ==> minimize == it.lazy
      ensures possessive <==> IsPossessive(it)
      ensures possessive ==> lo != hi && !minimize
    {
      var op := code[ecode];
      ItemOp(code, ecode, it);
      minimize, possessive := false, false;
      if op == OP_CHAR {
        x, lo, hi, next := Chr(code[ecode + 1]), 1, 1, ecode + 2;
      } else if op == OP_CLASS {
        x := Set(code[ecode + 1..ecode + 33]);
        next := ecode + 33;
        if OP_CRSTAR <= code[next] < OP_CRRANGE {
          lo, hi, minimize := Bounds(code[next] - OP_CRSTAR);
          next := next + 1;
        } else if code[next] == OP_CRRANGE || code[next] == OP_CRMINRANGE {
          minimize := code[next] == OP_CRMINRANGE;
          lo, hi := Get(code, next + 1), Get(code, next + 3);
          if hi == 0 { hi := -1; }
          next := next + 5;
        } else {
          lo, hi := 1, 1;
        }
      } else if IsTypeOp(op) {
        x, lo, hi, next := Type(op), 1, 1, ecode + 1;
      } else {
        var base := if op < OP_TYPESTAR then OP_STAR else OP_TYPESTAR;
        if op - base < 6 {
          lo, hi, minimize := Bounds(op - base);
          next := ecode + 2;
        } else if op - base > 8 {
          possessive := true;
          lo := if op == OP_POSPLUS || op == OP_TYPEPOSPLUS then 1 else 0;
          if op == OP_POSUPTO || op == OP_TYPEPOSUPTO {
            hi := Get(code, ecode + 1);
            next := ecode + 4;
          } else {
            hi := if op == OP_POSQUERY || op == OP_TYPEPOSQUERY then 1 else -1;
            next := ecode + 2;
          }
        } else {
          hi := Get(code, ecode + 1);
          lo := if op - base == 8 then hi else 0;
          minimize := op - base == 7;
          next := ecode + 4;
        }
        x := if base == OP_STAR then Chr(code[next - 1]) else Type(code[next - 1]);
      }
    }

    /** The tables rep_min and rep_max: *, *?, +, +?, ?, ??. */
    method Bounds(c: int) returns (lo: nat, hi: int, minimize: bool)
      requires 0 <= c < 6
      ensures lo == (if c / 2 == 1 then 1 else 0) && hi == (if c / 2 == 2 then 1 else -1) && minimize == (c % 2 == 1)
    {
      lo := [0, 0, 1, 1, 0, 0][c];
      hi := [-1, -1, -1, -1, 1, 1][c];
      minimize := c % 2 != 0;
    }

    method MatchSingle(eptr: nat, ecode: nat, offset_top: nat, eptrb: Chain, ghost tail: Branch, ghost k: Kont, ghost caps: Caps)
      returns (rrc: int)
      requires Valid() && !match_function_type && Ready(code, |subject|, tail, k, ecode, eptr, eptrb)
      requires tail.Cons? && (tail.hd.One? || tail.hd.Rep?)
      requires Underway(groups, tail, k, subject, eptr) && Tidy(offset_top, k, caps)
      modifies this, offset_vector
      ensures !match_function_type && (rrc == MATCH_MATCH || rrc == MATCH_NOMATCH)
      ensures Answers(rrc, From(tail, k, eptr, caps, eptrb))
      ensures Roomy() ==> offset_overflow == old(offset_overflow)
      ensures (rrc == MATCH_MATCH ==> Told()) && (rrc == MATCH_NOMATCH ==> Tidy(offset_top, k, caps))
      ensures rrc == MATCH_MATCH ==> ReachS(tail, k, subject, eptr, end_match_ptr)
      ensures rrc == MATCH_NOMATCH && NoFalseStart(eptrb, k, eptr) ==> Dead(tail, k, subject, eptr)
      ensures rrc == MATCH_NOMATCH ==> Undone(old(offset_vector[..]), offset_vector[..], offset_max, offset_top, k, subject)
      decreases |subject| - eptr, Steps(tail, k, eptr), 2
    {
      hide Underway, Roomy, Tidy, Told, Answers, From, Resume, Bind, GiveBack, RepO, PosO, Ready, Steps, ReachS, Dead, NoFalseStart, Undone, ItemAt, ItemSize, WFItem;
      ReadyHead(code, |subject|, tail, k, ecode, eptr, eptrb);
      ReadyBound(code, |subject|, tail, k, ecode, eptr, eptrb);
      AfterHead(code, |subject|, tail, k, ecode, eptr, eptrb);
      var x, lo, hi, minimize, possessive, next := Decode(ecode, tail.hd);
      RepeatsL(tail.hd, x, lo, hi, subject, eptr, eptr);
      var p := eptr;
      ghost var f, lazy := Resume(tail.tl, k, subject, eptrb), lo == hi || minimize;
      FromUnit(tail, k, eptr, caps, eptrb, x, lo, hi, lazy);
      while p < eptr + lo
        invariant eptr <= p <= eptr + lo && p <= |subject| && Run(x, subject, eptr, p)
        invariant Roomy() ==> offset_overflow == old(offset_overflow)
        invariant !match_function_type && offset_vector[..] == old(offset_vector[..]) && Tidy(offset_top, k, caps)
        invariant From(tail, k, eptr, caps, eptrb) == Bind(UnitO(possessive, x, eptr + lo - p, Left(hi, p - eptr), lazy, subject, Pos(p, caps)), f)
      {
        UnitMust(possessive, x, eptr + lo - p, Left(hi, p - eptr), lazy, subject, Pos(p, caps), f);
        if p >= |subject| || !Hit(x, subject[p]) {
          NoTries();
          TooShort(tail, k, x, lo, hi, subject, eptr, p);
          UndoneRefl(offset_vector[..], offset_max, offset_top, k, subject);
          return MATCH_NOMATCH;
        }
        p := p + 1;
      }
      if lo == hi || minimize {
        rrc := MatchUp(x, lo, hi, eptr, p, next, offset_top, eptrb, ecode, tail, k, caps);
      } else if possessive {
        rrc := MatchAll(x, lo, hi, eptr, p, next, offset_top, eptrb, ecode, tail, k, caps);
      } else {
        rrc := MatchDown(x, lo, hi, eptr, p, next, offset_top, eptrb, ecode, tail, k, caps);
      }
    }

    /** After the minimum, try what follows and take one more byte each time it
        fails. An exact count tries once. */
    method MatchUp(x: Single, lo: nat, hi: int, ghost eptr: nat, pp: nat, next: nat, offset_top: nat, eptrb: Chain,
                   ghost ecode: nat, ghost tail: Branch, ghost k: Kont, ghost caps: Caps)
      returns (rrc: int)
      requires Valid() && !match_function_type && Ready(code, |subject|, tail, k, ecode, eptr, eptrb)
      requires tail.Cons? && WFItem(tail.hd) && WFSingle(x) && Repeats(tail.hd, x, lo, hi) && next == ecode + ItemSize(tail.hd)
      requires !IsPossessive(tail.hd) && pp == eptr + lo <= |subject| && Run(x, subject, eptr, pp)
      requires From(tail, k, eptr, caps, eptrb) == Bind(RepO(x, 0, Left(hi, lo), true, subject, Pos(pp, caps)), Resume(tail.tl, k, subject, eptrb))
      requires Underway(groups, tail, k, subject, eptr) && Tidy(offset_top, k, caps)
      modifies this, offset_vector
      ensures !match_function_type && (rrc == MATCH_MATCH || rrc == MATCH_NOMATCH)
      ensures Answers(rrc, From(tail, k, eptr, caps, eptrb))
      ensures Roomy() ==> offset_overflow == old(offset_overflow)
      ensures (rrc == MATCH_MATCH ==> Told()) && (rrc == MATCH_NOMATCH ==> Tidy(offset_top, k, caps))
      ensures rrc == MATCH_MATCH ==> ReachS(tail, k, subject, eptr, end_match_ptr)
      ensures rrc == MATCH_NOMATCH && NoFalseStart(eptrb, k, eptr) ==> Dead(tail, k, subject, eptr)
      ensures rrc == MATCH_NOMATCH ==> Undone(old(offset_vector[..]), offset_vector[..], offset_max, offset_top, k, subject)
      decreases |subject| - eptr, Steps(tail, k, eptr), 1
    {
      hide Underway, Roomy, Tidy, Told, Answers, From, Resume, Bind, GiveBack, RepO, Ready, Steps, ReachS, Dead, NoFalseStart, Undone, ItemSize, WFItem, NullItem, ItemL, Run;
      ghost var was := offset_vector[..];
      UndoneRefl(was, offset_max, offset_top, k, subject);
      var p, fi := pp, lo;
      RepeatsL(tail.hd, x, lo, hi, subject, eptr, eptr);
      ghost var f := Resume(tail.tl, k, subject, eptrb);
      while true
        invariant From(tail, k, eptr, caps, eptrb) == Bind(RepO(x, 0, Left(hi, fi), true, subject, Pos(p, caps)), f)
        invariant fi == p - eptr
        invariant pp <= p <= |subject| && (hi < 0 || p - eptr <= hi) && Run(x, subject, eptr, p)
        invariant Roomy() ==> offset_overflow == old(offset_overflow)
        invariant !match_function_type && Undone(was, offset_vector[..], offset_max, offset_top, k, subject) && Tidy(offset_top, k, caps)
        invariant NoFalseStart(eptrb, k, eptr) ==> forall m: nat :: pp <= m < p ==> Dead(tail.tl, k, subject, m)
        decreases |subject| - p
      {
        rrc := MatchAfter(x, lo, hi, eptr, p, next, offset_top, eptrb, ecode, tail, k, caps, was);
        ghost var more := if Left(hi, fi) != 0 && HitAt(x, subject, p)
          then Bind(RepO(x, 0, Less(Left(hi, fi)), true, subject, Pos(p + 1, caps)), f) else [];
        RepUp(x, Left(hi, fi), true, subject, Pos(p, caps), f);
        FirstOf(rrc, f(Pos(p, caps)), more);
        if rrc == MATCH_MATCH { return; }
        if fi == hi || p >= |subject| || !Hit(x, subject[p]) { break; }
        RunMore(x, subject, eptr, p);
        p, fi := p + 1, fi + 1;
      }
      if NoFalseStart(eptrb, k, eptr) {
        AllTried(tail, k, x, lo, hi, subject, eptr, p);
      }
    }

    /** Take as many bytes as allowed, then give them back one at a time. */
    method MatchDown(x: Single, lo: nat, hi: int, ghost eptr: nat, pp: nat, next: nat, offset_top: nat, eptrb: Chain,
                     ghost ecode: nat, ghost tail: Branch, ghost k: Kont, ghost caps: Caps)
      returns (rrc: int)
      requires Valid() && !match_function_type && Ready(code, |subject|, tail, k, ecode, eptr, eptrb)
      requires tail.Cons? && WFItem(tail.hd) && WFSingle(x) && Repeats(tail.hd, x, lo, hi) && next == ecode + ItemSize(tail.hd)
      requires !IsPossessive(tail.hd) && pp == eptr + lo <= |subject| && Run(x, subject, eptr, pp)
      requires From(tail, k, eptr, caps, eptrb) == Bind(RepO(x, 0, Left(hi, lo), false, subject, Pos(pp, caps)), Resume(tail.tl, k, subject, eptrb))
      requires Underway(groups, tail, k, subject, eptr) && Tidy(offset_top, k, caps)
      modifies this, offset_vector
      ensures !match_function_type && (rrc == MATCH_MATCH || rrc == MATCH_NOMATCH)
      ensures Answers(rrc, From(tail, k, eptr, caps, eptrb))
      ensures Roomy() ==> offset_overflow == old(offset_overflow)
      ensures (rrc == MATCH_MATCH ==> Told()) && (rrc == MATCH_NOMATCH ==> Tidy(offset_top, k, caps))
      ensures rrc == MATCH_MATCH ==> ReachS(tail, k, subject, eptr, end_match_ptr)
      ensures rrc == MATCH_NOMATCH && NoFalseStart(eptrb, k, eptr) ==> Dead(tail, k, subject, eptr)
      ensures rrc == MATCH_NOMATCH ==> Undone(old(offset_vector[..]), offset_vector[..], offset_max, offset_top, k, subject)
      decreases |subject| - eptr, Steps(tail, k, eptr), 1
    {
      hide Underway, Roomy, Tidy, Told, Answers, From, Resume, Bind, GiveBack, RepO, Ready, Steps, ReachS, Dead, NoFalseStart, Undone, ItemSize, WFItem, NullItem, ItemL, Run;
      ghost var was := offset_vector[..];
      UndoneRefl(was, offset_max, offset_top, k, subject);
      var p := pp;
      RepeatsL(tail.hd, x, lo, hi, subject, eptr, eptr);
      ghost var f := Resume(tail.tl, k, subject, eptrb);
      NoneBack(RepO(x, 0, Left(hi, lo), false, subject, Pos(pp, caps)), pp, caps);
      while (hi < 0 || p - pp < hi - lo) && p < |subject| && Hit(x, subject[p])
        invariant From(tail, k, eptr, caps, eptrb) == Bind(RepO(x, 0, Left(hi, p - eptr), false, subject, Pos(p, caps)) + GiveBack(p - 1, pp, caps), f)
        invariant pp <= p <= |subject| && (hi < 0 || p - eptr <= hi) && Run(x, subject, eptr, p)
        invariant Roomy() ==> offset_overflow == old(offset_overflow)
        invariant !match_function_type && Undone(was, offset_vector[..], offset_max, offset_top, k, subject) && Tidy(offset_top, k, caps)
        decreases |subject| - p
      {
        RepDown(x, Left(hi, p - eptr), subject, Pos(p, caps), pp);
        RunMore(x, subject, eptr, p);
        p := p + 1;
      }
      RepDown(x, Left(hi, p - eptr), subject, Pos(p, caps), pp);
      ghost var top := p;
      var q: int := p;
      while q >= pp
        invariant pp - 1 <= q <= top && From(tail, k, eptr, caps, eptrb) == Bind(GiveBack(q, pp, caps), f)
        invariant Roomy() ==> offset_overflow == old(offset_overflow)
        invariant !match_function_type && Undone(was, offset_vector[..], offset_max, offset_top, k, subject) && Tidy(offset_top, k, caps)
        invariant NoFalseStart(eptrb, k, eptr) ==> forall m: nat :: q < m <= top ==> Dead(tail.tl, k, subject, m)
      {
        RunLess(x, subject, eptr, top, q);
        rrc := MatchAfter(x, lo, hi, eptr, q, next, offset_top, eptrb, ecode, tail, k, caps, was);
        BackOne(q, pp, caps, f);
        FirstOf(rrc, f(Pos(q, caps)), Bind(GiveBack(q - 1, pp, caps), f));
        if rrc == MATCH_MATCH { return; }
        q := q - 1;
      }
      rrc := MATCH_NOMATCH;
      NoneLeft(pp, caps, f);
      NoTries();
      if NoFalseStart(eptrb, k, eptr) {
        AllTried(tail, k, x, lo, hi, subject, eptr, top);
      }
    }

    /** A possessive repeat: take as many bytes as there are and go on; nothing
        is given back. */
    method MatchAll(x: Single, lo: nat, hi: int, ghost eptr: nat, pp: nat, next: nat, offset_top: nat, eptrb: Chain,
                    ghost ecode: nat, ghost tail: Branch, ghost k: Kont, ghost caps: Caps)
      returns (rrc: int)
      requires Valid() && !match_function_type && Ready(code, |subject|, tail, k, ecode, eptr, eptrb)
      requires tail.Cons? && WFItem(tail.hd) && WFSingle(x) && Repeats(tail.hd, x, lo, hi) && next == ecode + ItemSize(tail.hd)
      requires IsPossessive(tail.hd) && pp == eptr + lo <= |subject| && Run(x, subject, eptr, pp)
      requires From(tail, k, eptr, caps, eptrb) == Bind(PosO(x, 0, Left(hi, lo), subject, Pos(pp, caps)), Resume(tail.tl, k, subject, eptrb))
      requires Underway(groups, tail, k, subject, eptr) && Tidy(offset_top, k, caps)
      modifies this, offset_vector
      ensures !match_function_type && (rrc == MATCH_MATCH || rrc == MATCH_NOMATCH)
      ensures Answers(rrc, From(tail, k, eptr, caps, eptrb))
      ensures Roomy() ==> offset_overflow == old(offset_overflow)
      ensures (rrc == MATCH_MATCH ==> Told()) && (rrc == MATCH_NOMATCH ==> Tidy(offset_top, k, caps))
      ensures rrc == MATCH_MATCH ==> ReachS(tail, k, subject, eptr, end_match_ptr)
      ensures rrc == MATCH_NOMATCH && NoFalseStart(eptrb, k, eptr) ==> Dead(tail, k, subject, eptr)
      ensures rrc == MATCH_NOMATCH ==> Undone(old(offset_vector[..]), offset_vector[..], offset_max, offset_top, k, subject)
      decreases |subject| - eptr, Steps(tail, k, eptr), 1
    {
      hide Underway, Roomy, Tidy, Told, Answers, From, Resume, Bind, PosO, Ready, Steps, ReachS, Dead, NoFalseStart, Undone, ItemSize, WFItem, NullItem, ItemL, Run;
      ghost var was := offset_vector[..];
      UndoneRefl(was, offset_max, offset_top, k, subject);
      RepeatsL(tail.hd, x, lo, hi, subject, eptr, eptr);
      var p := pp;
      ghost var f := Resume(tail.tl, k, subject, eptrb);
      while (hi < 0 || p - pp < hi - lo) && p < |subject| && Hit(x, subject[p])
        invariant From(tail, k, eptr, caps, eptrb) == Bind(PosO(x, 0, Left(hi, p - eptr), subject, Pos(p, caps)), f)
        invariant pp <= p <= |subject| && (hi < 0 || p - eptr <= hi) && Run(x, subject, eptr, p)
        invariant Roomy() ==> offset_overflow == old(offset_overflow)
        invariant !match_function_type && offset_vector[..] == was && Tidy(offset_top, k, caps)
      {
        PosMore(x, Left(hi, p - eptr), subject, Pos(p, caps));
        RunMore(x, subject, eptr, p);
        p := p + 1;
      }
      PosMore(x, Left(hi, p - eptr), subject, Pos(p, caps));
      BindOne(Pos(p, caps), f);
      rrc := MatchAfter(x, lo, hi, eptr, p, next, offset_top, eptrb, ecode, tail, k, caps, was);
      if rrc == MATCH_NOMATCH && NoFalseStart(eptrb, k, eptr) {
        LongestTried(tail, k, x, lo, hi, subject, eptr, p);
      }
    }

    /** What follows the repeat, tried from `p`. */
    method MatchAfter(x: Single, lo: nat, hi: int, ghost eptr: nat, p: nat, next: nat, offset_top: nat, eptrb: Chain,
                      ghost ecode: nat, ghost tail: Branch, ghost k: Kont, ghost caps: Caps, ghost was: seq<int>)
      returns (rrc: int)
      requires Valid() && !match_function_type && Ready(code, |subject|, tail, k, ecode, eptr, eptrb)
      requires tail.Cons? && WFItem(tail.hd) && WFSingle(x) && Repeats(tail.hd, x, lo, hi) && next == ecode + ItemSize(tail.hd)
      requires eptr + lo <= p <= |subject| && (hi < 0 || p - eptr <= hi) && Run(x, subject, eptr, p)
      requires IsPossessive(tail.hd) ==> Full(x, hi, subject, eptr, p)
      requires Undone(was, offset_vector[..], offset_max, offset_top, k, subject)
      requires Underway(groups, tail, k, subject, eptr) && Tidy(offset_top, k, caps)
      modifies this, offset_vector
      ensures !match_function_type && (rrc == MATCH_MATCH || rrc == MATCH_NOMATCH)
      ensures Answers(rrc, Resume(tail.tl, k, subject, eptrb)(Pos(p, caps)))
      ensures Roomy() ==> offset_overflow == old(offset_overflow)
      ensures (rrc == MATCH_MATCH ==> Told()) && (rrc == MATCH_NOMATCH ==> Tidy(offset_top, k, caps))
      ensures rrc == MATCH_MATCH ==> ReachS(tail, k, subject, eptr, end_match_ptr)
      ensures rrc == MATCH_NOMATCH && NoFalseStart(eptrb, k, eptr) ==> Dead(tail.tl, k, subject, p)
      ensures rrc == MATCH_NOMATCH ==> Undone(was, offset_vector[..], offset_max, offset_top, k, subject)
      decreases |subject| - eptr, Steps(tail, k, eptr), 0
    {
      hide Underway, Roomy, Tidy, Told, Answers, Tries, Ready, Steps, ReachS, Dead, NoFalseStart, Undone, ItemSize, WFItem, NullItem, ItemL, Run;
      RepeatsL(tail.hd, x, lo, hi, subject, eptr, p);
      ReadyAfter(code, |subject|, tail, k, ecode, eptr, eptrb, p);
      UnderwayAfter(groups, tail, k, subject, eptr, p);
      ghost var mid := offset_vector[..];
      rrc := Match(p, next, offset_top, eptrb, tail.tl, k, caps, true);
      if rrc == MATCH_MATCH {
        ConsS(tail.hd, tail.tl, k, subject, eptr, p, end_match_ptr);
      } else {
        UndoneTrans(was, mid, offset_vector[..], offset_max, offset_top, k, subject);
      }
    }
  }
}
