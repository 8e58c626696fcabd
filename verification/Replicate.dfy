/** The quantifier of a group: the compiled group is moved, copied and nested in
    the code buffer, and the last copy may become a loop. */
module Replicate {
  import opened Opcodes
  import opened Tree
  import opened Kont
  import opened Pattern
  import opened Translate
  import opened Layout
  import opened Emit
  import opened Scan

  // ---- Brackets still open ----

  /** `m` brackets are open, each behind a zero-repeat prefix and with one copy
      of `g` in it. Until a bracket is closed its link leads back to the link
      of the bracket around it. `link` is the innermost link, -1 if there is
      none; writing goes on at `end`. */
  predicate Pending(c: seq<int>, base: nat, g: Item, lazy: bool, m: nat, link: int, end: int)
    decreases m
  {
    if m == 0 then link == -1 && end == base
    else
      && base + 2 <= link && link + 2 + ItemSize(g) == end <= |c|
      && c[link - 2] == OP_BRAZERO + Bit(lazy) && c[link - 1] == OP_BRA && ItemAt(c, link + 2, g)
      && (if m == 1 then Get(c, link) == 0 else 0 < Get(c, link) <= link)
      && Pending(c, base, g, lazy, m - 1, if m == 1 then -1 else link - Get(c, link), link - 2)
  }

  lemma PendingRange(c: seq<int>, base: nat, g: Item, lazy: bool, m: nat, link: int, end: int)
    requires Pending(c, base, g, lazy, m, link, end)
    ensures base <= end && (m > 0 ==> base + 2 <= link && link + 2 + ItemSize(g) == end <= |c|) && (link == -1 <==> m == 0)
  {}

  lemma {:induction false} PendingKept(was: seq<int>, now: seq<int>, p: nat, base: nat, g: Item, lazy: bool, m: nat, link: int, end: int)
    requires Pending(was, base, g, lazy, m, link, end) && Kept(was, now, p) && end <= p
    ensures Pending(now, base, g, lazy, m, link, end)
    decreases m
  {
    hide ItemAt, ItemSize;
    if m > 0 {
      ItemKept(was, now, p, link + 2, g);
      PendingKept(was, now, p, base, g, lazy, m - 1, if m == 1 then -1 else link - Get(was, link), link - 2);
    }
  }

  lemma PendingMore(was: seq<int>, now: seq<int>, base: nat, g: Item, lazy: bool, m: nat, link: int, end: nat)
    requires Pending(was, base, g, lazy, m, link, end) && Kept(was, now, end) && end + 4 + ItemSize(g) <= |now|
    requires now[end] == OP_BRAZERO + Bit(lazy) && now[end + 1] == OP_BRA && ItemAt(now, end + 4, g)
    requires Get(now, end + 2) == if link == -1 then 0 else end + 2 - link
    ensures Pending(now, base, g, lazy, m + 1, end + 2, end + 4 + ItemSize(g))
  {
    hide ItemAt, ItemSize;
    PendingRange(was, base, g, lazy, m, link, end);
    PendingKept(was, now, end, base, g, lazy, m, link, end);
  }

  lemma NestedSize(g: Item, k: nat, lazy: bool)
    requires k > 0
    ensures BranchSize(Nested(g, k, lazy)) == 1 + ItemSize(g) + if k == 1 then 0 else 6 + BranchSize(Nested(g, k - 1, lazy))
  {
    hide ItemSize;
    NestedItemSize(g, k, lazy);
  }

  lemma NestedItemSize(g: Item, k: nat, lazy: bool)
    requires k > 0
    ensures ItemSize(Nested(g, k, lazy).hd) == 1 + ItemSize(g) + if k == 1 then 0 else 6 + BranchSize(Nested(g, k - 1, lazy))
    ensures Nested(g, k, lazy).tl == Nil
  {
    if k > 1 {
      var body := Cons(g, Nested(g, k - 1, lazy));
      assert ItemSize(Bra(0, Last(body), Once)) == 6 + BranchSize(body);
    }
  }

  /** A zero-repeat prefix and a bracket whose link holds `offset`. */
  method PutOpen(buf: array<int>, at: nat, lazy: bool, offset: nat)
    requires at + 4 <= buf.Length
    modifies buf
    ensures buf[at] == OP_BRAZERO + Bit(lazy) && buf[at + 1] == OP_BRA && Get(buf[..], at + 2) == offset
    ensures forall y :: 0 <= y < buf.Length && !(at <= y < at + 4) ==> buf[y] == old(buf[y])
  {
    buf[at] := OP_BRAZERO + Bit(lazy);
    buf[at + 1] := OP_BRA;
    Put(buf, at + 2, offset);
  }

  /** Open one more bracket and copy the group into it. */
  method OpenCopy(buf: array<int>, previous: nat, len: nat, start: nat, link: int, lazy: bool, ghost base: nat, ghost g: Item, ghost m: nat)
    returns (code: nat, bralink: int)
    requires Pending(buf[..], base, g, lazy, m, link, start) && ItemAt(buf[..], previous, g)
    requires len == ItemSize(g) && previous + len <= start && start + 4 + len <= buf.Length
    modifies buf
    ensures Pending(buf[..], base, g, lazy, m + 1, bralink, code) && code == start + 4 + len
    ensures Kept(old(buf[..]), buf[..], start)
  {
    hide ItemAt, ItemSize, Copied, Pending;
    ghost var was := buf[..];
    PendingRange(was, base, g, lazy, m, link, start);
    bralink := start + 2;
    PutOpen(buf, start, lazy, if link == -1 then 0 else bralink - link);
    ghost var mid := buf[..];
    Written(was, mid, start, 4);
    ItemKept(was, mid, start, previous, g);
    Copy(buf, start + 4, previous, len);
    code := start + 4 + len;
    ItemMoved(mid, previous, g, buf[..], start + 4 - previous);
    SameCells(mid, buf[..], start, 4);
    KeptLess(mid, buf[..], start + 4, start);
    KeptTwice(was, mid, buf[..], start);
    PendingMore(was, buf[..], base, g, lazy, m, link, start);
  }

  lemma Written(was: seq<int>, now: seq<int>, p: nat, n: nat)
    requires |was| == |now| && p + n <= |was|
    requires forall y :: 0 <= y < |was| && !(p <= y < p + n) ==> now[y] == was[y]
    ensures Kept(was, now, p)
  {}

  lemma SameCells(was: seq<int>, now: seq<int>, p: nat, n: nat)
    requires Kept(was, now, p + n)
    ensures forall y :: p <= y < p + n ==> now[y] == was[y]
  {}

  /** The innermost copy: no bracket around it. */
  method LastCopy(buf: array<int>, previous: nat, len: nat, start: nat, lazy: bool, ghost g: Item)
    returns (code: nat)
    requires g.Bra? && g.ket.Once?
    requires ItemAt(buf[..], previous, g) && len == ItemSize(g) && previous + len <= start && start + 1 + len <= buf.Length
    modifies buf
    ensures BranchAt(buf[..], start, Nested(g, 1, lazy)) && code == start + 1 + len
    ensures Kept(old(buf[..]), buf[..], start)
  {
    hide ItemAt, ItemSize, Copied;
    ghost var was := buf[..];
    buf[start] := OP_BRAZERO + Bit(lazy);
    ghost var mid := buf[..];
    Written(was, mid, start, 1);
    ItemKept(was, mid, start, previous, g);
    Copy(buf, start + 1, previous, len);
    code := start + 1 + len;
    ItemMoved(mid, previous, g, buf[..], start + 1 - previous);
    SameCells(mid, buf[..], start, 1);
    KeptLess(mid, buf[..], start + 1, start);
    KeptTwice(was, mid, buf[..], start);
    ZeroThere(buf[..], start, g, lazy);
  }

  lemma ZeroThere(c: seq<int>, p: nat, it: Item, lazy: bool)
    requires p < |c| && c[p] == ZeroOp(lazy, it) && ItemAt(c, p + 1, it)
    ensures ItemAt(c, p, BraZero(lazy, it)) && BranchAt(c, p, Cons(BraZero(lazy, it), Nil))
  {
    ItemFits(c, p + 1, it);
    assert ItemAt(c, p, BraZero(lazy, it)) by { hide AltsAt, AltsSize; }
    hide ItemAt;
    OneAt(c, p, BraZero(lazy, it));
  }

  /** Close the pending brackets, innermost first. What the innermost holds so
      far is `g` and, from `e` on, the copies nested in it. */
  method CloseBrackets(buf: array<int>, start: nat, link: int, lazy: bool,
                       ghost base: nat, ghost g: Item, ghost m: nat, ghost k: nat, ghost e: nat)
    returns (code: nat)
    requires g.Bra? && m < k && Pending(buf[..], base, g, lazy, m, link, e)
    requires BranchAt(buf[..], e, Nested(g, k - m, lazy)) && start == e + BranchSize(Nested(g, k - m, lazy))
    requires start + 3 * m <= buf.Length
    modifies buf
    ensures code == start + 3 * m && code == base + BranchSize(Nested(g, k, lazy))
    ensures BranchAt(buf[..], base, Nested(g, k, lazy)) && Kept(old(buf[..]), buf[..], base)
  {
    hide ItemAt, ItemSize, BranchAt, BranchSize, Pending, Kept, Get, Nested;
    var bralink := link;
    code := start;
    ghost var m': nat, e': nat := m, e;
    PendingRange(buf[..], base, g, lazy, m, link, e);
    KeptSame(buf[..], base);
    while bralink != -1
      invariant m' <= m && Pending(buf[..], base, g, lazy, m', bralink, e') && base <= e'
      invariant bralink == -1 <==> m' == 0
      invariant BranchAt(buf[..], e', Nested(g, k - m', lazy)) && code == e' + BranchSize(Nested(g, k - m', lazy))
      invariant code == start + 3 * (m - m')
      invariant Kept(old(buf[..]), buf[..], base)
      decreases m'
    {
      PendingTop(buf[..], base, g, lazy, m', bralink, e');
      var offset := code - bralink + 1;
      var bra := code - offset;
      var oldlinkoffset := Get(buf[..], bra + 1);
      ghost var was, link' := buf[..], bralink;
      bralink := if oldlinkoffset == 0 then -1 else bralink - oldlinkoffset;
      PutKet(buf, code, bra, offset);
      Closed(was, buf[..], base, g, lazy, m', link', e', k, code);
      KeptTwice(old(buf[..]), was, buf[..], base);
      code := code + 1 + LINK_SIZE;
      m', e' := m' - 1, bra - 1;
      PendingRange(buf[..], base, g, lazy, m', bralink, e');
    }
    PendingNone(buf[..], base, g, lazy, bralink, e');
  }

  /** The ket of the bracket at `bra`, and the link of that bracket. */
  method PutKet(buf: array<int>, code: nat, bra: nat, offset: nat)
    requires bra + 2 < code && code + 2 < buf.Length
    modifies buf
    ensures Get(buf[..], bra + 1) == offset == Get(buf[..], code + 1) && buf[code] == OP_KET
    ensures forall y :: 0 <= y < buf.Length && y != bra + 1 && y != bra + 2 && !(code <= y < code + 3) ==> buf[y] == old(buf[y])
  {
    buf[code] := OP_KET;
    Put(buf, code + 1, offset);
    Put(buf, bra + 1, offset);
  }

  lemma PendingNone(c: seq<int>, base: nat, g: Item, lazy: bool, link: int, end: int)
    requires Pending(c, base, g, lazy, 0, link, end)
    ensures end == base
  {}

  lemma PendingTop(c: seq<int>, base: nat, g: Item, lazy: bool, m: nat, link: int, end: int)
    requires Pending(c, base, g, lazy, m, link, end) && m > 0
    ensures base + 2 <= link && link + 2 + ItemSize(g) == end <= |c|
    ensures c[link - 2] == OP_BRAZERO + Bit(lazy) && c[link - 1] == OP_BRA && ItemAt(c, link + 2, g)
    ensures Get(c, link) >= 0 && (Get(c, link) == 0 <==> m == 1)
    ensures Pending(c, base, g, lazy, m - 1, if m == 1 then -1 else link - Get(c, link), link - 2)
  {
    hide ItemAt, ItemSize;
  }

  /** What stands between the bracket at `link - 1` and the new ket at `code`. */
  lemma ClosedBody(was: seq<int>, now: seq<int>, g: Item, inner: Branch, link: int, e: nat, code: nat)
    requires g.Bra? && 2 <= link && link + 2 + ItemSize(g) == e && ItemAt(was, link + 2, g)
    requires BranchAt(was, e, inner) && code == e + BranchSize(inner) && code + 3 <= |was| == |now|
    requires forall y :: 0 <= y < |was| && y != link && y != link + 1 && !(code <= y < code + 3) ==> now[y] == was[y]
    ensures BranchAt(now, link + 2, Cons(g, inner)) && code == link + 2 + BranchSize(Cons(g, inner))
  {
    hide ItemAt, ItemSize, BranchAt;
    assert Copied(was, link + 2, code - (link + 2), now, 0);
    CopiedPart(was, link + 2, code - (link + 2), now, 0, link + 2, ItemSize(g));
    ItemMoved(was, link + 2, g, now, 0);
    CopiedPart(was, link + 2, code - (link + 2), now, 0, e, BranchSize(inner));
    BranchMoved(was, e, inner, now, 0);
    TwoThere(now, link + 2, g, inner);
  }

  /** Closing the innermost bracket turns its contents into one more level. */
  lemma Closed(was: seq<int>, now: seq<int>, base: nat, g: Item, lazy: bool, m: nat, link: int, e: nat, k: nat, code: nat)
    requires g.Bra? && 0 < m < k && Pending(was, base, g, lazy, m, link, e)
    requires BranchAt(was, e, Nested(g, k - m, lazy)) && code == e + BranchSize(Nested(g, k - m, lazy)) && code + 3 <= |was|
    requires |now| == |was| && link > 0 && Get(now, link) == code - link + 1 == Get(now, code + 1) && now[code] == OP_KET
    requires forall y :: 0 <= y < |was| && y != link && y != link + 1 && !(code <= y < code + 3) ==> now[y] == was[y]
    ensures base + 2 <= link && Get(was, link) >= 0 && (Get(was, link) == 0 <==> m == 1)
    ensures Pending(now, base, g, lazy, m - 1, if m == 1 then -1 else link - Get(was, link), link - 2)
    ensures BranchAt(now, link - 2, Nested(g, k - m + 1, lazy)) && code + 3 == link - 2 + BranchSize(Nested(g, k - m + 1, lazy))
    ensures Kept(was, now, base)
  {
    hide ItemAt, ItemSize, BranchAt, BranchSize, Pending, Get, Nested;
    var inner := Nested(g, k - m, lazy);
    var body := Cons(g, inner);
    PendingTop(was, base, g, lazy, m, link, e);
    assert Kept(was, now, link - 2);
    PendingKept(was, now, link - 2, base, g, lazy, m - 1, if m == 1 then -1 else link - Get(was, link), link - 2);
    ClosedBody(was, now, g, inner, link, e, code);
    BracketThere(now, link - 1, body, Once);
    ZeroThere(now, link - 2, Bra(0, Last(body), Once), lazy);
    NestedSize(g, k - m + 1, lazy);
    NestedMore(g, k - m + 1, lazy);
  }

  lemma NestedMore(g: Item, k: nat, lazy: bool)
    requires k > 1
    ensures Nested(g, k, lazy) == Cons(BraZero(lazy, Bra(0, Last(Cons(g, Nested(g, k - 1, lazy))), Once)), Nil)
  {}

  /** The optional copies of a group, each nested in the one before. `m0`
      brackets are open already. */
  method NestCopies(buf: array<int>, previous: nat, len: nat, start: nat, link: int, copies: nat, lazy: bool,
                    ghost base: nat, ghost g: Item, ghost m0: nat)
    returns (code: nat)
    requires g.Bra? && g.ket.Once? && ItemAt(buf[..], previous, g) && len == ItemSize(g) && previous + len <= start
    requires Pending(buf[..], base, g, lazy, m0, link, start) && (m0 == 0 || (m0 == 1 && copies > 0))
    requires start + BranchSize(Nested(g, copies, lazy)) + 3 * m0 <= buf.Length
    modifies buf
    ensures code == base + BranchSize(Nested(g, m0 + copies, lazy)) == start + BranchSize(Nested(g, copies, lazy)) + 3 * m0
    ensures BranchAt(buf[..], base, Nested(g, m0 + copies, lazy)) && Kept(old(buf[..]), buf[..], base)
  {
    hide ItemAt, ItemSize, BranchAt, BranchSize, Pending, Kept, Nested;
    ghost var was := buf[..];
    ghost var limit := start + BranchSize(Nested(g, copies, lazy)) + 3 * m0;
    PendingRange(was, base, g, lazy, m0, link, start);
    KeptSame(was, base);
    code := start;
    if copies == 0 {
      NoCopies(buf[..], base, g, lazy, link, start);
      return;
    }
    var bralink := link;
    var i := copies - 1;
    while i > 0
      invariant 0 <= i < copies
      invariant Pending(buf[..], base, g, lazy, m0 + copies - 1 - i, bralink, code) && base <= code && previous + len <= code
      invariant code + BranchSize(Nested(g, i + 1, lazy)) + 3 * (m0 + copies - 1 - i) == limit
      invariant ItemAt(buf[..], previous, g) && Kept(was, buf[..], base)
    {
      NestedSize(g, i + 1, lazy);
      ghost var mid, code' := buf[..], code;
      code, bralink := OpenCopy(buf, previous, len, code, bralink, lazy, base, g, m0 + copies - 1 - i);
      ItemKept(mid, buf[..], code', previous, g);
      KeptLess(mid, buf[..], code', base);
      KeptTwice(was, mid, buf[..], base);
      i := i - 1;
    }
    NestedSize(g, 1, lazy);
    ghost var mid, e, m := buf[..], code, m0 + copies - 1;
    code := LastCopy(buf, previous, len, code, lazy, g);
    PendingKept(mid, buf[..], e, base, g, lazy, m, bralink, e);
    KeptLess(mid, buf[..], e, base);
    KeptTwice(was, mid, buf[..], base);
    ghost var open := buf[..];
    code := CloseBrackets(buf, code, bralink, lazy, base, g, m, m0 + copies, e);
    KeptTwice(was, open, buf[..], base);
  }

  lemma NoCopies(c: seq<int>, base: nat, g: Item, lazy: bool, link: int, end: int)
    requires Pending(c, base, g, lazy, 0, link, end) && end <= |c|
    ensures end == base && BranchAt(c, base, Nested(g, 0, lazy)) && BranchSize(Nested(g, 0, lazy)) == 0
  {}

  // ---- Unlimited groups ----

  lemma LoopParts(c: seq<int>, p: nat, g: Item, ketop: int, possessive: bool)
    requires g.Bra? && g.ket.Once? && ShapedItem(g) && ItemAt(c, p, g)
    requires OP_KETRMAX <= ketop <= OP_KETRPOS
    ensures var h := HeadSize(g.cap); var k := p + AltsSize(h, g.alts);
            && p + 3 <= k && k + 3 == p + ItemSize(g) <= |c| && Get(c, k + 1) == k - p && h == HeaderLength(c[p])
            && c[p] == BraOp(g.cap, Once) && GroupAt(c[k := ketop][p := if possessive then c[p] + 1 else c[p]], p, h, g.alts)
  {
    hide AltsAt, AltsSize, ShapedAlts;
    BraParts(c, p, g);
    ShapedBra(g);
    var k := p + AltsSize(HeadSize(g.cap), g.alts);
    LoopAlts(c, c[k := ketop][p := if possessive then c[p] + 1 else c[p]], p, HeadSize(g.cap), g.alts);
  }

  lemma LoopMarked(was: seq<int>, now: seq<int>, p: nat, g: Item, lazy: bool, possessive: bool)
    requires g.Bra? && g.ket.Once? && ShapedItem(g) && ItemAt(was, p, g) && |was| == |now|
    requires var k := p + AltsSize(HeadSize(g.cap), g.alts); var ket := Looping(g, lazy, possessive).ket;
             k < |now| && p < k && now == was[k := KetOp(ket)][p := BraOp(g.cap, ket)]
    ensures ItemAt(now, p, Looping(g, lazy, possessive)) && ItemSize(Looping(g, lazy, possessive)) == ItemSize(g) && Kept(was, now, p)
  {
    hide AltsAt, AltsSize, ShapedAlts, NullAlts, Get, ItemAt, ItemSize, KetOp, BraOp;
    BraParts(was, p, g);
    var k := p + AltsSize(HeadSize(g.cap), g.alts);
    LoopLinks(was, now, p, k);
    LoopAlts(was, now, p, HeadSize(g.cap), g.alts);
    BraThere(now, p, Looping(g, lazy, possessive), k);
  }

  lemma LoopLinks(was: seq<int>, now: seq<int>, p: nat, k: nat)
    requires p + 3 <= k && k + 2 < |was| == |now| && forall y :: 0 <= y < |was| && y != p && y != k ==> now[y] == was[y]
    ensures Get(now, k + 1) == Get(was, k + 1) && (p + 4 < k ==> Get(now, p + 3) == Get(was, p + 3)) && Kept(was, now, p)
  {}

  lemma BraThere(c: seq<int>, p: nat, it: Item, k: nat)
    requires it.Bra? && k == p + AltsSize(HeadSize(it.cap), it.alts) && k + 3 <= |c|
    requires c[p] == BraOp(it.cap, it.ket) && (it.cap > 0 ==> p + 4 < |c| && Get(c, p + 3) == it.cap)
    requires AltsAt(c, p, HeadSize(it.cap), it.alts) && c[k] == KetOp(it.ket) && Get(c, k + 1) == k - p
    ensures ItemAt(c, p, it) && ItemSize(it) == k + 3 - p
  {
    hide AltsAt, AltsSize, Get;
  }

  lemma LoopAlts(was: seq<int>, now: seq<int>, p: nat, h: nat, a: Alts)
    requires AltsAt(was, p, h, a) && |was| == |now| && forall y :: p < y < p + AltsSize(h, a) ==> now[y] == was[y]
    ensures AltsAt(now, p, h, a)
    decreases a
  {
    hide BranchAt, BranchSize;
    assert Copied(was, p + h, BranchSize(a.b), now, 0);
    BranchMoved(was, p + h, a.b, now, 0);
    if a.More? {
      var q := p + h + BranchSize(a.b);
      assert Copied(was, q, AltsSize(1 + LINK_SIZE, a.rest), now, 0);
      AltsMoved(was, q, 1 + LINK_SIZE, a.rest, now, 0);
    }
  }

  /** Make the group that ends at `code` a loop, and mark its bracket if one of
      its branches could match nothing. */
  method MakeLoop(buf: array<int>, code: nat, lazy: bool, possessive: bool, ghost p: nat, ghost g: Item)
    requires g.Bra? && g.ket.Once? && ShapedItem(g) && ItemAt(buf[..], p, g) && code == p + ItemSize(g) && !(lazy && possessive)
    modifies buf
    ensures ItemAt(buf[..], p, Looping(g, lazy, possessive)) && ItemSize(Looping(g, lazy, possessive)) == ItemSize(g)
    ensures Kept(old(buf[..]), buf[..], p)
  {
    hide ItemAt, ItemSize, GroupAt, Get, AltsSize, ShapedItem, Kept, BranchAt, BranchSize, ShapedBranch, NullBranch;
    ghost var was, h := buf[..], HeadSize(g.cap);
    LoopParts(was, p, g, if possessive then OP_KETRPOS else OP_KETRMAX + Bit(lazy), possessive);
    var ketcode := code - 1 - LINK_SIZE;
    var bracode := ketcode - Get(buf[..], ketcode + 1);
    if possessive {
      buf[bracode] := buf[bracode] + 1;
      buf[ketcode] := OP_KETRPOS;
    } else {
      buf[ketcode] := OP_KETRMAX + Bit(lazy);
    }
    ghost var mid := buf[..];
    assert mid == was[ketcode := if possessive then OP_KETRPOS else OP_KETRMAX + Bit(lazy)][p := if possessive then was[p] + 1 else was[p]];
    var scode: nat := bracode;
    ghost var h': nat, a' := h, g.alts;
    while true
      invariant buf[..] == mid && GroupAt(mid, scode, h', a') && scode + AltsSize(h', a') == ketcode
      invariant NullAlts(g.alts) == NullAlts(a')
      decreases a'
    {
      GroupStep(mid, scode, h', a');
      HeadLength(mid, scode, h', a');
      GroupInside(mid, scode, h', a');
      var empty := CouldBeEmptyBranch(buf[..], scode, ketcode, a'.b);
      if empty {
        buf[bracode] := buf[bracode] + (OP_SBRA - OP_BRA);
        LoopMarked(was, buf[..], p, g, lazy, possessive);
        return;
      }
      scode := scode + Get(buf[..], scode + 1);
      BranchEndMeans(mid, scode);
      if buf[scode] != OP_ALT { break; }
      h', a' := 1 + LINK_SIZE, a'.rest;
    }
    LoopMarked(was, buf[..], p, g, lazy, possessive);
  }

  lemma GroupInside(c: seq<int>, p: nat, h: nat, a: Alts)
    requires GroupAt(c, p, h, a)
    ensures p + h + BranchSize(a.b) <= p + AltsSize(h, a)
  {
    hide AltsAt, BranchSize, ShapedAlts;
  }

  // ---- The quantifier of a group ----

  /** Shift the group up by one and put the zero-repeat prefix before it. */
  method PutZero(buf: array<int>, previous: nat, len: nat, lazy: bool, ghost g: Item)
    requires ItemAt(buf[..], previous, g) && len == ItemSize(g) && previous + len + 1 <= buf.Length
    modifies buf
    ensures buf[previous] == OP_BRAZERO + Bit(lazy) && ItemAt(buf[..], previous + 1, g)
    ensures Kept(old(buf[..]), buf[..], previous)
  {
    hide ItemAt, ItemSize;
    ghost var was := buf[..];
    MoveUp(buf, previous, len, 1);
    ghost var mid := buf[..];
    buf[previous] := OP_BRAZERO + Bit(lazy);
    Shifted(was, mid, buf[..], previous, len, 1);
    ItemMoved(was, previous, g, buf[..], 1);
    Written(mid, buf[..], previous, 1);
    KeptTwice(was, mid, buf[..], previous);
  }

  /** The same, with the first of the brackets that nest the copies. */
  method PutZeroBracket(buf: array<int>, previous: nat, len: nat, lazy: bool, ghost g: Item)
    requires ItemAt(buf[..], previous, g) && len == ItemSize(g) && previous + len + 4 <= buf.Length
    modifies buf
    ensures Pending(buf[..], previous, g, lazy, 1, previous + 2, previous + 4 + len) && ItemAt(buf[..], previous + 4, g)
    ensures Kept(old(buf[..]), buf[..], previous)
  {
    hide ItemAt, ItemSize, Copied, Pending, Get;
    ghost var was := buf[..];
    MoveUp(buf, previous, len, 2 + LINK_SIZE);
    ghost var mid := buf[..];
    PutOpen(buf, previous, lazy, 0);
    Shifted(was, mid, buf[..], previous, len, 4);
    ItemMoved(was, previous, g, buf[..], 4);
    Written(mid, buf[..], previous, 4);
    KeptTwice(was, mid, buf[..], previous);
    NothingPending(was, previous, g, lazy);
    PendingMore(was, buf[..], previous, g, lazy, 0, -1, previous);
  }

  lemma Shifted(was: seq<int>, mid: seq<int>, now: seq<int>, p: nat, n: nat, d: nat)
    requires Copied(was, p, n, mid, d) && |mid| == |now| && forall y :: p + d <= y < |now| ==> now[y] == mid[y]
    ensures Copied(was, p, n, now, d)
  {}

  /** Replicate the group to have it `min` times. */
  method PutCopies(buf: array<int>, previous: nat, len: nat, min: nat, ghost g: Item) returns (code: nat)
    requires min > 0 && ItemAt(buf[..], previous, g) && len == ItemSize(g)
    requires previous + BranchSize(Copies(g, min - 1, Nil)) + len <= buf.Length
    modifies buf
    ensures previous + len <= code == previous + BranchSize(Copies(g, min - 1, Nil)) + len
    ensures BranchAt(buf[..], previous, Copies(g, min - 1, Nil)) && ItemAt(buf[..], code - len, g) && ItemAt(buf[..], previous, g)
    ensures Kept(old(buf[..]), buf[..], previous)
  {
    hide ItemAt, ItemSize, BranchAt, BranchSize, Copies, Copied, Kept;
    ghost var was := buf[..];
    code := previous + len;
    NoneThere(was, previous, g);
    for i := 1 to min
      invariant previous + len <= code == previous + BranchSize(Copies(g, i - 1, Nil)) + len
      invariant BranchAt(buf[..], previous, Copies(g, i - 1, Nil)) && ItemAt(buf[..], code - len, g) && ItemAt(buf[..], previous, g)
      invariant Kept(was, buf[..], previous)
    {
      ghost var mid, code' := buf[..], code;
      MoreCopies(g, i, min);
      Copy(buf, code, previous, len);
      code := code + len;
      ItemMoved(mid, previous, g, buf[..], code' - previous);
      ItemKept(mid, buf[..], code', previous, g);
      CopyThere(mid, buf[..], previous, g, i, code', len);
      KeptLess(mid, buf[..], code', previous);
      KeptTwice(was, mid, buf[..], previous);
    }
  }

  lemma NoneThere(c: seq<int>, p: nat, g: Item)
    requires p <= |c|
    ensures BranchAt(c, p, Copies(g, 0, Nil)) && BranchSize(Copies(g, 0, Nil)) == 0 && Kept(c, c, p)
  {}

  lemma {:induction false} MoreCopies(g: Item, i: nat, n: nat)
    requires 0 < i < n
    ensures BranchSize(Copies(g, i, Nil)) == BranchSize(Copies(g, i - 1, Nil)) + ItemSize(g) <= BranchSize(Copies(g, n - 1, Nil))
    decreases n
  {
    hide ItemSize;
    CopiesAppend(g, n - 2, Nil);
    AppendAt([], 0, Copies(g, n - 2, Nil), Cons(g, Nil));
    OneAt([], 0, g);
    if i < n - 1 { MoreCopies(g, i, n - 1); }
  }

  /** What stood before the new copy, with the copy that was last. */
  lemma CopyThere(was: seq<int>, now: seq<int>, p: nat, g: Item, i: nat, code: nat, len: nat)
    requires i > 0 && BranchAt(was, p, Copies(g, i - 1, Nil)) && len == ItemSize(g) <= code && ItemAt(was, code - len, g)
    requires code == p + BranchSize(Copies(g, i - 1, Nil)) + len && Kept(was, now, code)
    ensures BranchAt(now, p, Copies(g, i, Nil))
  {
    hide ItemAt, ItemSize, BranchAt, BranchSize, Copied;
    BranchKept(was, now, code, p, Copies(g, i - 1, Nil));
    ItemKept(was, now, code, code - len, g);
    OneAt(now, code - len, g);
    CopiesAppend(g, i - 1, Nil);
    AppendAt(now, p, Copies(g, i - 1, Nil), Cons(g, Nil));
  }

  lemma CopiesThen(c: seq<int>, p: nat, g: Item, n: nat, rest: Branch)
    ensures BranchSize(Copies(g, n, rest)) == BranchSize(Copies(g, n, Nil)) + BranchSize(rest)
    ensures BranchAt(c, p, Copies(g, n, Nil)) && BranchAt(c, p + BranchSize(Copies(g, n, Nil)), rest) ==> BranchAt(c, p, Copies(g, n, rest))
    ensures BranchSize(Copies(g, n + 1, Nil)) == BranchSize(Copies(g, n, Nil)) + ItemSize(g)
    ensures BranchAt(c, p, Copies(g, n, Nil)) && ItemAt(c, p + BranchSize(Copies(g, n, Nil)), g) ==> BranchAt(c, p, Copies(g, n + 1, Nil))
  {
    hide ItemAt, ItemSize, BranchAt, BranchSize;
    CopiesAppend(g, n, rest);
    AppendAt(c, p, Copies(g, n, Nil), rest);
    AppendAt(c, p, Copies(g, n, Nil), Cons(g, Nil));
    OneAt(c, p + BranchSize(Copies(g, n, Nil)), g);
  }

  /** The quantifier of the group that lies at `start` and ends at `end`. A
      possessive quantifier that is limited puts all the copies into atomic
      brackets. */
  method RepeatGroup(buf: array<int>, start: nat, end: nat, q: Quant, ghost g: Item) returns (code: nat)
    requires g.Bra? && g.ket.Once? && ShapedItem(g) && ItemAt(buf[..], start, g) && end == start + ItemSize(g)
    requires q.Quant? && WFQuant(q) && start + BranchSize(CodeGroup(g, q)) <= buf.Length
    modifies buf
    ensures code == start + BranchSize(CodeGroup(g, q)) && BranchAt(buf[..], start, CodeGroup(g, q))
    ensures Kept(old(buf[..]), buf[..], start)
  {
    hide BranchSize, BranchAt, ItemAt, ItemSize, Kept, ShapedItem, Repeated;
    ghost var was, b := buf[..], Repeated(g, q.min, q.max, q.lazy, q.possessive && q.max == -1);
    var len := end - start;
    var wrap := q.possessive && q.max != -1;
    RepeatedPlain(g, q);
    if wrap { WrappedSize(b); }
    if q.min == 0 {
      code := RepeatFromZero(buf, start, len, q.max, q.lazy, q.possessive && q.max == -1, g);
    } else {
      code := RepeatFromOne(buf, start, len, q.min, q.max, q.lazy, q.possessive && q.max == -1, g);
    }
    if wrap {
      ghost var mid := buf[..];
      code := WrapOnce(buf, start, code, b);
      KeptTwice(was, mid, buf[..], start);
    }
  }

  /** A limited repeat has no possessive form of its own. */
  lemma RepeatedPlain(g: Item, q: Quant)
    requires g.Bra? && q.Quant? && WFQuant(q)
    ensures var b := Repeated(g, q.min, q.max, q.lazy, q.possessive && q.max == -1);
            CodeGroup(g, q) == if q.possessive && q.max != -1 then Wrapped(b) else b
  {}

  method RepeatFromZero(buf: array<int>, start: nat, len: nat, max: int, lazy: bool, possessive: bool, ghost g: Item) returns (code: nat)
    requires g.Bra? && g.ket.Once? && ShapedItem(g) && ItemAt(buf[..], start, g) && len == ItemSize(g)
    requires (max == -1 || 0 < max) && !(lazy && possessive)
    requires start + BranchSize(Repeated(g, 0, max, lazy, possessive)) <= buf.Length
    modifies buf
    ensures code == start + BranchSize(Repeated(g, 0, max, lazy, possessive))
    ensures BranchAt(buf[..], start, Repeated(g, 0, max, lazy, possessive)) && Kept(old(buf[..]), buf[..], start)
  {
    hide ItemAt, ItemSize, BranchAt, BranchSize, Copied, Pending, Nested, ShapedItem, Looping, Kept;
    ghost var was := buf[..];
    code := start + len;
    ZeroSizes(g, max, lazy, possessive);
    var repeat_max := max;
    var previous := start;
    var bralink := -1;
    if repeat_max <= 1 {
      PutZero(buf, previous, len, lazy, g);
      code := code + 1;
      previous := previous + 1;
    } else {
      PutZeroBracket(buf, previous, len, lazy, g);
      code := code + 2 + LINK_SIZE;
      bralink := previous + 2;
      previous := previous + 2 + LINK_SIZE;
    }
    repeat_max := repeat_max - 1;
    ghost var mid := buf[..];
    if repeat_max < 0 {
      if possessive { buf[start] := OP_BRAPOSZERO; }
      ghost var zero := buf[..];
      LaterSame(mid, zero, start, g);
      MakeLoop(buf, code, lazy, possessive, previous, g);
      KeptCell(zero, buf[..], start);
      LoopZero(g, lazy, possessive);
      ZeroThere(buf[..], start, Looping(g, lazy, possessive), lazy);
      KeptLess(zero, buf[..], previous, start);
      KeptTwice(was, mid, zero, start);
      KeptTwice(was, zero, buf[..], start);
    } else if bralink != -1 {
      code := NestCopies(buf, previous, len, code, bralink, repeat_max, lazy, start, g, 1);
      KeptTwice(was, mid, buf[..], start);
    } else {
      ZeroThere(buf[..], start, g, lazy);
      OneNested(g, lazy);
    }
  }

  lemma KeptCell(was: seq<int>, now: seq<int>, p: nat)
    requires Kept(was, now, p + 1)
    ensures p < |now| == |was| && now[p] == was[p]
  {}

  /** Another prefix in front of the group. */
  lemma LaterSame(was: seq<int>, now: seq<int>, p: nat, g: Item)
    requires ItemAt(was, p + 1, g) && p < |was| && (now == was || now == was[p := OP_BRAPOSZERO])
    ensures ItemAt(now, p + 1, g) && Kept(was, now, p)
  {
    hide ItemAt, ItemSize;
    ItemFits(was, p + 1, g);
    ItemMoved(was, p + 1, g, now, 0);
  }

  lemma LoopZero(g: Item, lazy: bool, possessive: bool)
    requires g.Bra?
    ensures ZeroOp(lazy, Looping(g, lazy, possessive)) == if possessive then OP_BRAPOSZERO else OP_BRAZERO + Bit(lazy)
    ensures g.ket.Once? ==> ZeroOp(lazy, g) == OP_BRAZERO + Bit(lazy)
  {}

  lemma OneNested(g: Item, lazy: bool)
    ensures Nested(g, 1, lazy) == Cons(BraZero(lazy, g), Nil)
  {}

  lemma ZeroSizes(g: Item, max: int, lazy: bool, possessive: bool)
    requires g.Bra? && (max == -1 || 0 < max)
    ensures max <= 1 ==> BranchSize(Repeated(g, 0, max, lazy, possessive)) == 1 + ItemSize(g)
    ensures max > 1 ==> Repeated(g, 0, max, lazy, possessive) == Nested(g, max, lazy) &&
                        BranchSize(Nested(g, max, lazy)) == 7 + ItemSize(g) + BranchSize(Nested(g, max - 1, lazy))
    ensures max == -1 ==> Repeated(g, 0, max, lazy, possessive) == Cons(BraZero(lazy, Looping(g, lazy, possessive)), Nil)
    ensures max == 1 ==> Repeated(g, 0, max, lazy, possessive) == Nested(g, 1, lazy)
  {
    if max > 0 {
      NestedSize(g, max, lazy);
    } else {
      assert ItemSize(Looping(g, lazy, possessive)) == ItemSize(g);
      assert BranchSize(Cons(BraZero(lazy, Looping(g, lazy, possessive)), Nil)) == 1 + ItemSize(g);
    }
  }

  method RepeatFromOne(buf: array<int>, start: nat, len: nat, min: nat, max: int, lazy: bool, possessive: bool, ghost g: Item) returns (code: nat)
    requires g.Bra? && g.ket.Once? && ShapedItem(g) && ItemAt(buf[..], start, g) && len == ItemSize(g)
    requires 0 < min && (max == -1 || min <= max) && !(lazy && possessive)
    requires start + BranchSize(Repeated(g, min, max, lazy, possessive)) <= buf.Length
    modifies buf
    ensures code == start + BranchSize(Repeated(g, min, max, lazy, possessive))
    ensures BranchAt(buf[..], start, Repeated(g, min, max, lazy, possessive)) && Kept(old(buf[..]), buf[..], start)
  {
    hide ItemAt, ItemSize, BranchAt, BranchSize, Copied, Pending, Nested, ShapedItem, Looping, Kept, Copies;
    ghost var was := buf[..];
    var repeat_max := max;
    CopiesThen(was, start, g, min - 1, Cons(Looping(g, lazy, possessive), Nil));
    LoopingSize(was, start, g, lazy, possessive);
    if max >= 0 { CopiesThen(was, start, g, min, Nested(g, max - min, lazy)); }
    code := PutCopies(buf, start, len, min, g);
    if repeat_max > 0 { repeat_max := repeat_max - min; }
    ghost var mid, base := buf[..], code;
    if repeat_max >= 0 {
      NothingPending(mid, base, g, lazy);
      CopiesThen(mid, start, g, min - 1, Nil);
      code := NestCopies(buf, start, len, code, -1, repeat_max, lazy, base, g, 0);
      BranchKept(mid, buf[..], base, start, Copies(g, min, Nil));
      CopiesThen(buf[..], start, g, min, Nested(g, max - min, lazy));
      KeptLess(mid, buf[..], base, start);
    } else {
      MakeLoop(buf, code, lazy, possessive, code - len, g);
      BranchKept(mid, buf[..], base - len, start, Copies(g, min - 1, Nil));
      OneAt(buf[..], base - len, Looping(g, lazy, possessive));
      CopiesThen(buf[..], start, g, min - 1, Cons(Looping(g, lazy, possessive), Nil));
      KeptLess(mid, buf[..], base - len, start);
    }
    KeptTwice(was, mid, buf[..], start);
  }

  lemma NothingPending(c: seq<int>, base: nat, g: Item, lazy: bool)
    ensures Pending(c, base, g, lazy, 0, -1, base)
  {}

  lemma LoopingSize(c: seq<int>, p: nat, g: Item, lazy: bool, possessive: bool)
    requires g.Bra?
    ensures BranchSize(Cons(Looping(g, lazy, possessive), Nil)) == ItemSize(Looping(g, lazy, possessive)) == ItemSize(g)
  {}
}
