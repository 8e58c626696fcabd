/** What the offsets vector holds while match() runs: where the open groups
    started, and stretches of the subject that closed groups matched. */
module Spans {
  import opened Opcodes
  import opened Tree
  import opened Language
  import opened Kont
  import opened Order

  /** A capturing group: its number and its alternatives. */
  type Groups = set<(nat, Alts)>

  function ItemGroups(it: Item): Groups
    decreases it
  {
    match it
    case Bra(cap, alts, _) => (if cap > 0 then {(cap, alts)} else {}) + AltsGroups(alts)
    case BraZero(_, bra) => ItemGroups(bra)
    case _ => {}
  }

  function BranchGroups(b: Branch): Groups
    decreases b
  {
    match b
    case Nil => {}
    case Cons(hd, tl) => ItemGroups(hd) + BranchGroups(tl)
  }

  function AltsGroups(a: Alts): Groups
    decreases a
  {
    match a
    case Last(b) => BranchGroups(b)
    case More(b, rest) => BranchGroups(b) + AltsGroups(rest)
  }

  // ---- Groups in the code and groups that are open ----

  predicate IsOpen(k: Kont, c: nat) {
    k.In? && ((k.bra.Bra? && k.bra.cap == c) || IsOpen(k.k, c))
  }

  /** None of the groups is open. */
  ghost predicate Shut(gs: Groups, k: Kont) {
    forall g :: g in gs ==> !IsOpen(k, g.0)
  }

  /** No group contains one with its own number. */
  ghost predicate NoSelf(gs: Groups) {
    forall g, h :: g in gs && h in AltsGroups(g.1) ==> h.0 != g.0
  }

  ghost predicate KontTracked(all: Groups, k: Kont) {
    k.In? ==>
      && ItemGroups(k.bra) + BranchGroups(k.rest) <= all
      && Shut(ItemGroups(k.bra), k.k) && Shut(BranchGroups(k.rest), k.k)
      && KontTracked(all, k.k)
  }

  /** All groups met from here on are known, and those to come are not open. */
  ghost predicate Tracked(all: Groups, tail: Branch, k: Kont) {
    NoSelf(all) && BranchGroups(tail) <= all && Shut(BranchGroups(tail), k) && KontTracked(all, k)
  }

  // ---- What the open groups have matched so far ----

  /** Whatever the rest of the branch matches from `i` on completes the branch
      that was entered at the start of the group; so for the groups outside. */
  ghost predicate Prefix(tail: Branch, k: Kont, s: seq<byte>, i: nat)
    decreases k
  {
    k.In? ==>
      && k.bra.Bra?
      && (forall m: nat :: BranchL(tail, s, i, m) ==> AltsL(k.bra.alts, s, k.entry, m))
      && Prefix(Cons(k.bra, k.rest), k.k, s, k.entry)
  }

  ghost predicate Underway(all: Groups, tail: Branch, k: Kont, s: seq<byte>, i: nat) {
    Tracked(all, tail, k) && Prefix(tail, k, s, i)
  }

  // ---- The offsets vector ----

  /** The working slot of an open group holds where it started. */
  ghost predicate Starts(ov: seq<int>, end: nat, max: nat, k: Kont) {
    k.In? ==>
      (k.bra.Bra? && k.bra.cap > 0 && 2 * k.bra.cap < max ==> k.bra.cap <= end && end - k.bra.cap < |ov| && ov[end - k.bra.cap] == k.entry) &&
      Starts(ov, end, max, k.k)
  }

  /** Some group with the number matches this stretch. */
  ghost predicate Spanned(all: Groups, s: seq<byte>, c: nat, i: int, j: int) {
    0 <= i && 0 <= j && exists alts :: (c, alts) in all && AltsL(alts, s, i, j)
  }

  /** Below the high-water mark a pair of slots is unset or holds a stretch that
      its group matches. */
  ghost predicate Good(ov: seq<int>, max: nat, top: nat, all: Groups, s: seq<byte>) {
    max <= |ov| && max % 2 == 0 &&
    forall c: nat :: c > 0 && 2 * c < top && 2 * c < max ==> ov[2 * c] == -1 || Spanned(all, s, c, ov[2 * c], ov[2 * c + 1])
  }

  /** The pair of slots that shows whether and where group `c` was captured. */
  function Pair(caps: Caps, c: nat): (int, int) {
    if c in caps then (caps[c].0 as int, caps[c].1 as int) else (-1, -1)
  }

  /** The data slots of all groups but those still open show what is captured:
      below the high-water mark as they stand, from there on as unset. The
      group just below the mark is captured. */
  ghost predicate Shows(ov: seq<int>, max: nat, top: nat, caps: Caps, k: Kont) {
    max <= |ov| && max % 2 == 0 && top >= 2 && (top > 2 ==> top / 2 - 1 in caps) &&
    forall c: nat :: c > 0 && 2 * c < max && !IsOpen(k, c) ==>
      if 2 * c < top then (ov[2 * c], ov[2 * c + 1]) == Pair(caps, c) else c !in caps
  }

  ghost predicate Slots(ov: seq<int>, end: nat, max: nat, top: nat, all: Groups, s: seq<byte>, k: Kont, caps: Caps) {
    Good(ov, max, top, all, s) && Starts(ov, end, max, k) && Shows(ov, max, top, caps, k)
  }

  // ---- Moving on ----

  /** Past the head of the branch. */
  lemma UnderwayAfter(all: Groups, tail: Branch, k: Kont, s: seq<byte>, i: nat, j: nat)
    requires Underway(all, tail, k, s, i) && tail.Cons? && ItemL(tail.hd, s, i, j)
    ensures Underway(all, tail.tl, k, s, j)
  {
    hide BranchL, AltsL, ItemL, NoSelf, KontTracked, IsOpen;
    if k.In? {
      forall m: nat | BranchL(tail.tl, s, j, m) ensures AltsL(k.bra.alts, s, k.entry, m) {
        ConsL(tail, s, i, j, m);
      }
    }
  }

  lemma UnderwayZero(all: Groups, tail: Branch, k: Kont, s: seq<byte>, i: nat)
    requires Underway(all, tail, k, s, i) && tail.Cons? && tail.hd.BraZero? && tail.hd.bra.Bra?
    ensures Underway(all, Cons(tail.hd.bra, tail.tl), k, s, i)
  {
    hide BranchL, AltsL, ItemL, NoSelf, KontTracked, IsOpen;
    var tail' := Cons(tail.hd.bra, tail.tl);
    assert BranchGroups(tail') == BranchGroups(tail);
    if k.In? {
      forall m: nat | BranchL(tail', s, i, m) ensures AltsL(k.bra.alts, s, k.entry, m) {
        var x := Uncons(tail', s, i, m);
        ItemRange(tail.hd.bra, s, i, x);
        BraZeroL(tail.hd, s, i, x);
        ConsL(tail, s, i, x, m);
      }
    }
  }

  lemma SuffixGroups(p: nat, h: nat, a: Alts, p': nat, h': nat, a': Alts)
    requires IsSuffix(p, h, a, p', h', a')
    ensures BranchGroups(a'.b) <= AltsGroups(a)
    decreases a
  {
    if !(p' == p && h' == h && a' == a) {
      SuffixGroups(p + h + BranchSize(a.b), 1 + LINK_SIZE, a.rest, p', h', a');
    }
  }

  lemma SuffixMatch(p: nat, h: nat, a: Alts, p': nat, h': nat, a': Alts, s: seq<byte>, i: nat, j: nat)
    requires IsSuffix(p, h, a, p', h', a') && BranchL(a'.b, s, i, j)
    ensures AltsL(a, s, i, j)
    decreases a
  {
    hide BranchL;
    AltsSplit(a, s, i, j);
    if !(p' == p && h' == h && a' == a) {
      SuffixMatch(p + h + BranchSize(a.b), 1 + LINK_SIZE, a.rest, p', h', a', s, i, j);
    }
  }

  /** The groups inside a bracket that is not open: neither is the bracket one
      of them, nor are they open. */
  lemma InnerShut(all: Groups, bra: Item, b: Branch, gp: nat, i: nat, first: bool, rest: Branch, k: Kont)
    requires bra.Bra? && NoSelf(all) && ItemGroups(bra) <= all && Shut(ItemGroups(bra), k) && BranchGroups(b) <= AltsGroups(bra.alts)
    ensures BranchGroups(b) <= all && Shut(BranchGroups(b), In(bra, gp, i, first, rest, k))
  {
    forall g | g in BranchGroups(b) ensures !IsOpen(In(bra, gp, i, first, rest, k), g.0) {
      assert g in ItemGroups(bra);
      if bra.cap > 0 { assert (bra.cap, bra.alts) in ItemGroups(bra); } else { GroupsPositive(bra.alts, g); }
    }
  }

  lemma {:induction false} GroupsPositive(a: Alts, g: (nat, Alts))
    requires g in AltsGroups(a)
    ensures g.0 > 0
    decreases a
  {
    if g in BranchGroups(a.b) { BranchGroupsPositive(a.b, g); } else { GroupsPositive(a.rest, g); }
  }

  lemma {:induction false} BranchGroupsPositive(b: Branch, g: (nat, Alts))
    requires g in BranchGroups(b)
    ensures g.0 > 0
    decreases b
  {
    if g in ItemGroups(b.hd) { ItemGroupsPositive(b.hd, g); } else { BranchGroupsPositive(b.tl, g); }
  }

  lemma {:induction false} ItemGroupsPositive(it: Item, g: (nat, Alts))
    requires g in ItemGroups(it)
    ensures g.0 > 0
    decreases it
  {
    match it
    case Bra(cap, alts, _) => if g in AltsGroups(alts) { GroupsPositive(alts, g); }
    case BraZero(_, bra) => ItemGroupsPositive(bra, g);
  }

  /** Into a branch of a bracket. */
  lemma UnderwayEnter(all: Groups, tail: Branch, k: Kont, s: seq<byte>, i: nat, gp: nat, first: bool, p: nat, h: nat, a: Alts)
    requires Underway(all, tail, k, s, i) && tail.Cons? && tail.hd.Bra?
    requires IsSuffix(gp, HeadSize(tail.hd.cap), tail.hd.alts, p, h, a)
    ensures Underway(all, a.b, In(tail.hd, gp, i, first, tail.tl, k), s, i)
  {
    hide BranchL, AltsL, ItemL, IsSuffix, NoSelf, ItemGroups, IsOpen;
    var k' := In(tail.hd, gp, i, first, tail.tl, k);
    SuffixGroups(gp, HeadSize(tail.hd.cap), tail.hd.alts, p, h, a);
    InnerShut(all, tail.hd, a.b, gp, i, first, tail.tl, k);
    forall m: nat | BranchL(a.b, s, i, m) ensures AltsL(tail.hd.alts, s, i, m) {
      SuffixMatch(gp, HeadSize(tail.hd.cap), tail.hd.alts, p, h, a, s, i, m);
    }
    assert Cons(k'.bra, k'.rest) == tail;
  }

  /** At the ket: the group has matched from its start up to here. */
  lemma UnderwayMatched(all: Groups, k: Kont, s: seq<byte>, i: nat)
    requires Underway(all, Nil, k, s, i) && k.In? && i <= |s|
    ensures k.bra.Bra? && AltsL(k.bra.alts, s, k.entry, i) && (k.bra.cap > 0 ==> (k.bra.cap, k.bra.alts) in all)
  {
    hide BranchL, AltsL;
    NilL(s, i, i);
    assert k.bra.cap > 0 ==> (k.bra.cap, k.bra.alts) in ItemGroups(k.bra);
  }

  lemma TrackedLeave(all: Groups, k: Kont)
    requires Tracked(all, Nil, k) && k.In?
    ensures Tracked(all, k.rest, k.k) && Tracked(all, Cons(k.bra, k.rest), k.k)
  {
    hide ItemGroups, NoSelf, IsOpen;
    var b := Cons(k.bra, k.rest);
    assert BranchGroups(b) == ItemGroups(k.bra) + BranchGroups(k.rest);
  }

  lemma PrefixLeave(k: Kont, s: seq<byte>, i: nat)
    requires Prefix(Nil, k, s, i) && k.In? && AltsL(k.bra.alts, s, k.entry, i)
    ensures Prefix(k.rest, k.k, s, i)
    ensures IsLoop(k.bra) ==> Prefix(Cons(k.bra, k.rest), k.k, s, i)
  {
    hide BranchL, AltsL, ItemL;
    var b := Cons(k.bra, k.rest);
    assert Prefix(b, k.k, s, k.entry);
    forall m: nat ensures BranchL(k.rest, s, i, m) || (IsLoop(k.bra) && BranchL(b, s, i, m)) ==> BranchL(b, s, k.entry, m) {
      if BranchL(k.rest, s, i, m) {
        RoundDone(k.bra, s, k.entry, i);
        ConsL(b, s, k.entry, i, m);
      }
      if IsLoop(k.bra) && BranchL(b, s, i, m) {
        var x := Uncons(b, s, i, m);
        RoundMore(k.bra, s, k.entry, i, x);
        ConsL(b, s, k.entry, x, m);
      }
    }
  }

  /** Out of the group, or round it again. */
  lemma UnderwayLeave(all: Groups, k: Kont, s: seq<byte>, i: nat)
    requires Underway(all, Nil, k, s, i) && k.In? && i <= |s|
    ensures Underway(all, k.rest, k.k, s, i)
    ensures IsLoop(k.bra) ==> Underway(all, Cons(k.bra, k.rest), k.k, s, i)
  {
    hide AltsL, Tracked, Prefix;
    UnderwayMatched(all, k, s, i);
    TrackedLeave(all, k);
    PrefixLeave(k, s, i);
  }

  lemma RoundDone(it: Item, s: seq<byte>, i: nat, j: nat)
    requires it.Bra? && AltsL(it.alts, s, i, j)
    ensures ItemL(it, s, i, j)
  {
    hide AltsL, ItemL, Iter;
    BraL(it, s, i, j);
    AltsRange(it.alts, s, i, j);
    IterNone(it.alts, s, j, j);
    IterMore(it.alts, s, 0, i, j, j);
  }

  lemma RoundMore(it: Item, s: seq<byte>, i: nat, x: nat, j: nat)
    requires IsLoop(it) && AltsL(it.alts, s, i, x) && ItemL(it, s, x, j)
    ensures ItemL(it, s, i, j)
  {
    hide AltsL, ItemL, Iter;
    BraL(it, s, x, j);
    BraL(it, s, i, j);
    var n: nat :| n > 0 && Iter(it.alts, s, n, x, j);
    IterMore(it.alts, s, n, i, x, j);
  }

  // ---- The slots ----

  /** Writing the working slot of a group that is not open. */
  lemma {:induction false} StartsWrite(ov: seq<int>, end: nat, max: nat, k: Kont, c: nat, i: int)
    requires Starts(ov, end, max, k) && 0 < c <= end && end - c < |ov| && !IsOpen(k, c)
    ensures Starts(ov[end - c := i], end, max, k)
    decreases k
  {
    if k.In? { StartsWrite(ov, end, max, k.k, c, i); }
  }

  /** The working slots are as they were. */
  lemma {:induction false} StartsKept(was: seq<int>, now: seq<int>, end: nat, max: nat, k: Kont)
    requires Starts(was, end, max, k) && |was| == |now| && forall x :: max <= x < |was| ==> now[x] == was[x]
    requires end % 3 == 0 && max == 2 * end / 3
    ensures Starts(now, end, max, k)
    decreases k
  {
    if k.In? {
      StartsKept(was, now, end, max, k.k);
    }
  }

  lemma GoodLess(ov: seq<int>, max: nat, top: nat, top': nat, all: Groups, s: seq<byte>)
    requires Good(ov, max, top, all, s) && top' <= top
    ensures Good(ov, max, top', all, s)
  {}

  /** Entering a capturing group writes only a working slot. */
  lemma SlotsEnter(ov: seq<int>, end: nat, max: nat, top: nat, all: Groups, s: seq<byte>, bra: Item, gp: nat, i: nat, first: bool, rest: Branch, k: Kont, caps: Caps)
    requires Slots(ov, end, max, top, all, s, k, caps) && bra.Bra? && end % 3 == 0 && max == 2 * end / 3 && end <= |ov|
    requires bra.cap > 0 && 2 * bra.cap < max ==> !IsOpen(k, bra.cap)
    ensures var ov' := if bra.cap > 0 && 2 * bra.cap < max then ov[end - bra.cap := i] else ov;
            Slots(ov', end, max, top, all, s, In(bra, gp, i, first, rest, k), caps)
  {
    hide Spanned;
    if bra.cap > 0 && 2 * bra.cap < max { StartsWrite(ov, end, max, k, bra.cap, i); }
  }

  /** Data slots put back as they were before the group was entered. */
  lemma GoodRestored(a: seq<int>, b: seq<int>, c: seq<int>, max: nat, top: nat, all: Groups, s: seq<byte>, n: nat, w: nat)
    requires Good(a, max, top, all, s) && Good(b, max, top, all, s) && |a| == |b| && 2 * n + 1 < max <= w < |a|
    requires c == b[2 * n := a[2 * n]][2 * n + 1 := a[2 * n + 1]][w := a[w]]
    ensures Good(c, max, top, all, s)
  {
    hide Spanned;
    forall x: nat | x > 0 && 2 * x < top && 2 * x < max ensures c[2 * x] == -1 || Spanned(all, s, x, c[2 * x], c[2 * x + 1]) {
      if x == n { assert c[2 * x] == a[2 * x] && c[2 * x + 1] == a[2 * x + 1]; }
    }
  }

  /** A capture is completed: slots passed over are unset, its own pair holds
      what the group matched. */
  lemma GoodCapture(was: seq<int>, now: seq<int>, max: nat, top: nat, top': nat, all: Groups, s: seq<byte>, n: nat)
    requires Good(was, max, top, all, s) && n > 0 && 2 * n < max && |was| == |now|
    requires top' == if top <= 2 * n then 2 * n + 2 else top
    requires forall x: nat :: x < max && x != 2 * n && x != 2 * n + 1 ==> now[x] == if top <= x < 2 * n then -1 else was[x]
    requires Spanned(all, s, n, now[2 * n], now[2 * n + 1]) && top % 2 == 0
    ensures Good(now, max, top', all, s)
  {
    hide Spanned;
    forall x: nat | x > 0 && 2 * x < top' && 2 * x < max ensures now[2 * x] == -1 || Spanned(all, s, x, now[2 * x], now[2 * x + 1]) {
      if x != n && 2 * x < top { assert now[2 * x] == was[2 * x] && now[2 * x + 1] == was[2 * x + 1]; }
    }
  }

  /** Its own pair shows the group that was just closed. */
  lemma ShowsCapture(was: seq<int>, now: seq<int>, max: nat, top: nat, top': nat, k: Kont, caps: Caps, n: nat, i: nat)
    requires Shows(was, max, top, caps, k) && k.In? && k.bra.Bra? && n == k.bra.cap > 0 && 2 * n < max && |was| == |now|
    requires top' == if top <= 2 * n then 2 * n + 2 else top
    requires forall x: nat :: x < max && x != 2 * n && x != 2 * n + 1 ==> now[x] == if top <= x < 2 * n then -1 else was[x]
    requires (now[2 * n], now[2 * n + 1]) == (k.entry, i) && top % 2 == 0
    ensures Shows(now, max, top', caps[n := (k.entry, i)], k.k)
  {}
}
