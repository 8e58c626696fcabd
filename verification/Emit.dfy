/** Writing single items and their repeats into the code buffer, in place. */
module Emit {
  import opened Opcodes
  import opened Tree
  import opened Translate
  import opened Layout

  /** PUT and PUT2. */
  method Put(buf: array<int>, p: nat, d: nat)
    requires p + 1 < buf.Length
    modifies buf
    ensures buf[..] == old(buf[..])[p := d / 256][p + 1 := d % 256]
    ensures Get(buf[..], p) == d
  {
    buf[p], buf[p + 1] := d / 256, d % 256;
  }

  /** memcpy() of `n` cells to a place further on. */
  method Copy(buf: array<int>, dest: nat, src: nat, n: nat)
    requires src + n <= dest && dest + n <= buf.Length
    modifies buf
    ensures Kept(old(buf[..]), buf[..], dest) && Copied(old(buf[..]), src, n, buf[..], dest - src)
  {
    for k := 0 to n
      invariant Kept(old(buf[..]), buf[..], dest)
      invariant Copied(old(buf[..]), src, k, buf[..], dest - src)
    {
      buf[dest + k] := buf[src + k];
    }
  }

  /** memmove() of `n` cells up by `d`. */
  method MoveUp(buf: array<int>, p: nat, n: nat, d: nat)
    requires p + n + d <= buf.Length
    modifies buf
    ensures Kept(old(buf[..]), buf[..], p) && Copied(old(buf[..]), p, n, buf[..], d)
  {
    var k: nat := n;
    while k > 0
      invariant k <= n
      invariant Kept(old(buf[..]), buf[..], p + k)
      invariant Copied(old(buf[..]), p + k, n - k, buf[..], d)
    {
      k := k - 1;
      buf[p + k + d] := buf[p + k];
    }
  }

  method EmitSingle(buf: array<int>, code: nat, x: Single) returns (next: nat)
    requires WFSingle(x) && code + SingleSize(x) <= buf.Length
    modifies buf
    ensures next == code + SingleSize(x) && SingleAt(buf[..], code, x) && Kept(old(buf[..]), buf[..], code)
  {
    match x
    case Chr(c) =>
      buf[code], buf[code + 1] := OP_CHAR, c;
      next := code + 2;
    case Type(op) =>
      buf[code] := op;
      next := code + 1;
    case Set(bits) =>
      buf[code] := OP_CLASS;
      for k := 0 to 32
        invariant buf[code] == OP_CLASS && buf[code + 1..code + 1 + k] == bits[..k]
        invariant Kept(old(buf[..]), buf[..], code)
      {
        buf[code + 1 + k] := bits[k];
      }
      next := code + 33;
  }

  /** A repeat whose cells have been written. */
  lemma RepThere(c: seq<int>, p: nat, x: Single, k: Kind, lazy: bool)
    requires RepAt(c, p, x, k, lazy)
    ensures BranchAt(c, p, Cons(Rep(x, k, lazy), Nil)) && BranchSize(Cons(Rep(x, k, lazy), Nil)) == RepSize(x, k)
  {
    hide RepAt;
    assert p + RepSize(x, k) <= |c| by { RepFits(c, p, x, k, lazy); }
    assert ItemAt(c, p, Rep(x, k, lazy));
    OneAt(c, p, Rep(x, k, lazy));
  }

  lemma RepFits(c: seq<int>, p: nat, x: Single, k: Kind, lazy: bool)
    requires RepAt(c, p, x, k, lazy)
    ensures p + RepSize(x, k) <= |c|
  {}

  lemma TwoThere(c: seq<int>, p: nat, it: Item, b: Branch)
    requires ItemAt(c, p, it) && BranchAt(c, p + ItemSize(it), b)
    ensures BranchAt(c, p, Cons(it, b)) && BranchSize(Cons(it, b)) == ItemSize(it) + BranchSize(b)
  {
    hide ItemAt, ItemSize;
    BranchFits(c, p + ItemSize(it), b);
  }

  /** One repeat opcode, with its count if it has one, and what it repeats. */
  method PutRepeat(buf: array<int>, code: nat, x: Single, kind: Kind, lazy: bool, c: int) returns (next: nat)
    requires !x.Set? && WFKind(x, kind) && !IsPossessive(Rep(x, kind, false)) && c == (if x.Chr? then x.c else x.op)
    requires code + RepSize(x, kind) <= buf.Length
    modifies buf
    ensures next == code + RepSize(x, kind) && RepAt(buf[..], code, x, kind, lazy) && Kept(old(buf[..]), buf[..], code)
  {
    next := code;
    buf[next] := RepBase(x) + KindOffset(kind) + (if kind.Exact? then 0 else Bit(lazy));
    next := next + 1;
    if kind.Upto? || kind.Exact? {
      Put(buf, next, kind.n);
      next := next + 2;
    }
    buf[next] := c;
    next := next + 1;
  }

  /** The repeat of a character or type takes the place of the item, or follows
      it when the minimum is one. */
  method RepeatPlain(buf: array<int>, previous: nat, oldcode: nat, x: Single, min: nat, max: int, lazy: bool)
    returns (code: nat)
    requires !x.Set? && WFSingle(x) && (max == -1 || (0 < max && min <= max))
    requires SingleAt(buf[..], previous, x) && oldcode == previous + SingleSize(x)
    requires previous + BranchSize(CodeSingle(x, min, max, lazy, false)) <= buf.Length
    modifies buf
    ensures code == previous + BranchSize(CodeSingle(x, min, max, lazy, false))
    ensures BranchAt(buf[..], previous, CodeSingle(x, min, max, lazy, false)) && Kept(old(buf[..]), buf[..], previous)
  {
    hide RepAt, Kept, BranchAt, BranchSize, RepSize, SingleAt, ItemAt, ItemSize;
    ghost var was := buf[..];
    SingleSizes(x, min, max, lazy, false);
    SingleLast(was, previous, x);
    var c := buf[oldcode - 1];
    code := previous;
    if min == 0 {
      if max == -1 {
        code := PutRepeat(buf, code, x, Star, lazy, c);
      } else if max == 1 {
        code := PutRepeat(buf, code, x, Query, lazy, c);
      } else {
        code := PutRepeat(buf, code, x, Upto(max), lazy, c);
      }
      RepThere(buf[..], previous, x, if max == -1 then Star else if max == 1 then Query else Upto(max), lazy);
    } else if min == 1 {
      if max == -1 {
        code := PutRepeat(buf, code, x, Plus, lazy, c);
        RepThere(buf[..], previous, x, Plus, lazy);
      } else {
        code := oldcode;
        OneThere(was, previous, x);
        if max == 1 {
          KeptSame(was, previous);
          return;
        }
        code := PutRepeat(buf, code, x, Upto(max - 1), lazy, c);
        RepAfter(was, buf[..], previous, One(x), x, Upto(max - 1), lazy);
      }
    } else {
      code := PutRepeat(buf, code, x, Exact(min), false, c);
      RepThere(buf[..], previous, x, Exact(min), false);
      label L:
      if max != min {
        OneAt(buf[..], previous, Rep(x, Exact(min), false));
        code := RepeatRest(buf, previous, code, x, min, max, lazy, c);
        KeptTwice(was, old@L(buf[..]), buf[..], previous);
      }
    }
  }

  /** What may follow an EXACT. */
  method RepeatRest(buf: array<int>, previous: nat, oldcode: nat, x: Single, min: nat, max: int, lazy: bool, c: int)
    returns (code: nat)
    requires !x.Set? && WFSingle(x) && min > 1 && (max == -1 || min < max) && c == (if x.Chr? then x.c else x.op)
    requires ItemAt(buf[..], previous, Rep(x, Exact(min), false)) && oldcode == previous + RepSize(x, Exact(min))
    requires previous + BranchSize(CodeSingle(x, min, max, lazy, false)) <= buf.Length
    modifies buf
    ensures code == previous + BranchSize(CodeSingle(x, min, max, lazy, false))
    ensures BranchAt(buf[..], previous, CodeSingle(x, min, max, lazy, false)) && Kept(old(buf[..]), buf[..], previous)
  {
    hide RepAt, Kept, BranchAt, BranchSize, RepSize, ItemAt, ItemSize;
    SingleSizes(x, min, max, lazy, false);
    if max < 0 {
      code := PutRepeat(buf, oldcode, x, Star, lazy, c);
    } else if max - min == 1 {
      code := PutRepeat(buf, oldcode, x, Query, lazy, c);
    } else {
      code := PutRepeat(buf, oldcode, x, Upto(max - min), lazy, c);
    }
    RepAfter(old(buf[..]), buf[..], previous, Rep(x, Exact(min), false), x, if max < 0 then Star else if max - min == 1 then Query else Upto(max - min), lazy);
  }

  /** A possessive repeat is first written as it stands; then the opcode behind
      an EXACT is changed to its possessive form. There is none where the item
      itself comes first: then all is put into atomic brackets. */
  method RepeatSingle(buf: array<int>, previous: nat, oldcode: nat, x: Single, min: nat, max: int, lazy: bool, possessive: bool)
    returns (code: nat)
    requires !x.Set? && WFSingle(x) && (max == -1 || (0 < max && min <= max))
    requires SingleAt(buf[..], previous, x) && oldcode == previous + SingleSize(x)
    requires previous + BranchSize(CodeSingle(x, min, max, lazy, possessive)) <= buf.Length
    modifies buf
    ensures code == previous + BranchSize(CodeSingle(x, min, max, lazy, possessive))
    ensures BranchAt(buf[..], previous, CodeSingle(x, min, max, lazy, possessive)) && Kept(old(buf[..]), buf[..], previous)
  {
    hide RepAt, Kept, BranchAt, BranchSize, SingleAt, ItemAt, ItemSize, CodeSingle;
    if !possessive || (min == 1 && max == 1) {
      SameOnce(x, min, max, lazy, possessive);
      code := RepeatPlain(buf, previous, oldcode, x, min, max, lazy);
    } else {
      ghost var was := buf[..];
      SamePossessive(x, min, max, lazy);
      code := RepeatPlain(buf, previous, oldcode, x, min, max, false);
      ghost var mid := buf[..];
      PlainThere(mid, previous, x, min, max);
      var tempcode := previous;
      if buf[tempcode] == OP_EXACT || buf[tempcode] == OP_TYPEEXACT { tempcode := tempcode + 4; }
      if code - tempcode > 0 {
        var op := PossessiveOp(buf[tempcode]);
        if op != OP_END {
          buf[tempcode] := op;
          PossessiveThere(mid, buf[..], previous, x, min, max, lazy, tempcode);
        } else {
          code := WrapOnce(buf, tempcode, code, CodeSingle(x, min, max, false, false));
        }
        KeptTwice(was, mid, buf[..], previous);
      }
    }
  }

  /** The possessive form of a repeat opcode; OP_END if it has none. */
  method PossessiveOp(op: int) returns (r: int)
    ensures op == OP_STAR || op == OP_PLUS || op == OP_QUERY || op == OP_UPTO ==>
              r == (if op == OP_STAR then OP_POSSTAR else if op == OP_PLUS then OP_POSPLUS else if op == OP_QUERY then OP_POSQUERY else OP_POSUPTO)
    ensures op == OP_TYPESTAR || op == OP_TYPEPLUS || op == OP_TYPEQUERY || op == OP_TYPEUPTO ==>
              r == (if op == OP_TYPESTAR then OP_TYPEPOSSTAR else if op == OP_TYPEPLUS then OP_TYPEPOSPLUS
                    else if op == OP_TYPEQUERY then OP_TYPEPOSQUERY else OP_TYPEPOSUPTO)
    ensures op < OP_STAR || OP_CRSTAR <= op ==> r == OP_END
  {
    if op == OP_STAR { r := OP_POSSTAR; }
    else if op == OP_PLUS { r := OP_POSPLUS; }
    else if op == OP_QUERY { r := OP_POSQUERY; }
    else if op == OP_UPTO { r := OP_POSUPTO; }
    else if op == OP_TYPESTAR { r := OP_TYPEPOSSTAR; }
    else if op == OP_TYPEPLUS { r := OP_TYPEPOSPLUS; }
    else if op == OP_TYPEQUERY { r := OP_TYPEPOSQUERY; }
    else if op == OP_TYPEUPTO { r := OP_TYPEPOSUPTO; }
    else { r := OP_END; }
  }

  /** Shift the code up and put atomic brackets around it. */
  method WrapOnce(buf: array<int>, tempcode: nat, oldcode: nat, ghost b: Branch) returns (code: nat)
    requires BranchAt(buf[..], tempcode, b) && oldcode == tempcode + BranchSize(b) && oldcode + 2 + 2 * LINK_SIZE <= buf.Length
    modifies buf
    ensures code == oldcode + 2 + 2 * LINK_SIZE == tempcode + BranchSize(Wrapped(b))
    ensures BranchAt(buf[..], tempcode, Wrapped(b)) && Kept(old(buf[..]), buf[..], tempcode)
  {
    hide BranchAt, BranchSize, Copied, Get, ItemAt;
    ghost var was := buf[..];
    var len := oldcode - tempcode;
    MoveUp(buf, tempcode, len, 1 + LINK_SIZE);
    ghost var mid := buf[..];
    code := oldcode + 1 + LINK_SIZE;
    len := len + 1 + LINK_SIZE;
    PutOnce(buf, tempcode, code, len);
    code := code + 1 + LINK_SIZE;
    MovedWithin(was, mid, buf[..], tempcode, len - 3);
    BranchMoved(was, tempcode, b, buf[..], 3);
    BracketThere(buf[..], tempcode, b, Atomic);
    OneAt(buf[..], tempcode, Bra(0, Last(b), Atomic));
  }

  /** The two brackets, with their links. */
  method PutOnce(buf: array<int>, tempcode: nat, code: nat, len: nat)
    requires tempcode + 3 <= code && code + 2 < buf.Length
    modifies buf
    ensures buf[tempcode] == OP_ONCE && buf[code] == OP_KET && Get(buf[..], tempcode + 1) == len == Get(buf[..], code + 1)
    ensures forall y :: 0 <= y < buf.Length && !(tempcode <= y < tempcode + 3) && !(code <= y < code + 3) ==> buf[y] == old(buf[y])
  {
    buf[tempcode] := OP_ONCE;
    buf[code] := OP_KET;
    Put(buf, code + 1, len);
    Put(buf, tempcode + 1, len);
  }

  lemma MovedWithin(was: seq<int>, mid: seq<int>, now: seq<int>, p: nat, n: nat)
    requires Copied(was, p, n, mid, 3) && Kept(was, mid, p) && |mid| == |now|
    requires forall y :: 0 <= y < |now| && !(p <= y < p + 3) && !(p + n + 3 <= y < p + n + 6) ==> now[y] == mid[y]
    ensures Copied(was, p, n, now, 3) && Kept(was, now, p)
  {}

  lemma SameOnce(x: Single, min: nat, max: int, lazy: bool, possessive: bool)
    requires max == -1 || (0 < max && min <= max)
    ensures min == 1 && max == 1 ==> CodeSingle(x, min, max, lazy, possessive) == CodeSingle(x, min, max, lazy, false)
  {}

  /** The possessive form is as long as the plain one, but for the brackets. */
  lemma SamePossessive(x: Single, min: nat, max: int, lazy: bool)
    requires !x.Set? && (max == -1 || (0 < max && min <= max)) && !(min == 1 && max == 1)
    ensures min == 1 && max > 1 ==> CodeSingle(x, min, max, lazy, true) == Wrapped(CodeSingle(x, min, max, false, false))
    ensures var plain := BranchSize(CodeSingle(x, min, max, false, false));
            BranchSize(CodeSingle(x, min, max, lazy, true)) == if min == 1 && max > 1 then plain + 2 + 2 * LINK_SIZE else plain
    ensures max == min ==> CodeSingle(x, min, max, lazy, true) == CodeSingle(x, min, max, false, false)
  {
    SingleSizes(x, min, max, false, false);
    if min == 1 && max > 1 { WrappedSize(CodeSingle(x, min, max, false, false)); } else { SingleSizes(x, min, max, lazy, true); }
  }

  lemma WrappedSize(b: Branch)
    ensures BranchSize(Wrapped(b)) == BranchSize(b) + 2 + 2 * LINK_SIZE
  {
    assert ItemSize(Wrapped(b).hd) == BranchSize(b) + 6;
  }

  /** The repeat behind the EXACT, if there is one. */
  function Behind(min: nat, max: int): Kind {
    if min == 1 then Plus
    else if max == -1 then Star
    else if max - min == 1 then Query
    else if max > min then Upto(max - min) else Star
  }

  function PosKind(k: Kind): Kind {
    match k
    case Plus => PosPlus
    case Query => PosQuery
    case Upto(n) => PosUpto(n)
    case _ => PosStar
  }

  /** Where the part that can be made possessive lies. */
  lemma PlainThere(c: seq<int>, p: nat, x: Single, min: nat, max: int)
    requires !x.Set? && WFSingle(x) && (max == -1 || (0 < max && min <= max)) && !(min == 1 && max == 1)
    requires BranchAt(c, p, CodeSingle(x, min, max, false, false))
    ensures p < |c| && (c[p] == OP_EXACT || c[p] == OP_TYPEEXACT <==> min > 1)
    ensures BranchSize(CodeSingle(x, min, max, false, false)) > 0
    ensures max == min ==> BranchSize(CodeSingle(x, min, max, false, false)) == 4
    ensures min == 1 && max > 1 ==> c[p] == OP_CHAR || IsTypeOp(c[p])
    ensures min > 1 ==> ItemAt(c, p, Rep(x, Exact(min), false)) && (max != min ==> BranchSize(CodeSingle(x, min, max, false, false)) > 4)
    ensures max != min && !(min == 1 && max > 1) ==>
              var q := if min > 1 then p + 4 else p;
              RepAt(c, q, x, Behind(min, max), false) && q < |c| && c[q] == RepBase(x) + KindOffset(Behind(min, max))
  {
    var b := CodeSingle(x, min, max, false, false);
    assert ItemAt(c, p, b.hd);
    SingleSizes(x, min, max, false, false);
    if b.tl.Cons? { assert ItemAt(c, p + ItemSize(b.hd), b.tl.hd); }
  }

  lemma PossessiveThere(was: seq<int>, now: seq<int>, p: nat, x: Single, min: nat, max: int, lazy: bool, q: nat)
    requires !x.Set? && WFSingle(x) && (max == -1 || (0 < max && min <= max)) && max != min && !(min == 1 && max > 1)
    requires q == (if min > 1 then p + 4 else p) && q < |was|
    requires min > 1 ==> ItemAt(was, p, Rep(x, Exact(min), false))
    requires RepAt(was, q, x, Behind(min, max), false)
    requires now == was[q := RepBase(x) + KindOffset(PosKind(Behind(min, max)))]
    ensures BranchAt(now, p, CodeSingle(x, min, max, lazy, true)) && Kept(was, now, p)
  {
    var kind := PosKind(Behind(min, max));
    assert RepAt(now, q, x, kind, false);
    hide RepAt, ItemAt;
    if min > 1 {
      RepAfter(was, now, p, Rep(x, Exact(min), false), x, kind, false);
    } else {
      RepThere(now, p, x, kind, false);
    }
  }

  lemma SingleLast(c: seq<int>, p: nat, x: Single)
    requires SingleAt(c, p, x) && !x.Set?
    ensures p + SingleSize(x) <= |c| && c[p + SingleSize(x) - 1] == if x.Chr? then x.c else x.op
  {}

  lemma OneThere(c: seq<int>, p: nat, x: Single)
    requires SingleAt(c, p, x)
    ensures ItemAt(c, p, One(x)) && BranchAt(c, p, Cons(One(x), Nil)) && p <= |c|
  {
    OneAt(c, p, One(x));
  }

  /** A repeat written behind an item. */
  lemma RepAfter(was: seq<int>, now: seq<int>, p: nat, it: Item, x: Single, k: Kind, lazy: bool)
    requires ItemAt(was, p, it) && Kept(was, now, p + ItemSize(it)) && RepAt(now, p + ItemSize(it), x, k, lazy)
    ensures BranchAt(now, p, Cons(it, Cons(Rep(x, k, lazy), Nil))) && Kept(was, now, p)
  {
    hide ItemAt, RepAt, BranchAt, ItemSize;
    ItemKept(was, now, p + ItemSize(it), p, it);
    RepThere(now, p + ItemSize(it), x, k, lazy);
    TwoThere(now, p, it, Cons(Rep(x, k, lazy), Nil));
  }

  lemma SingleSizes(x: Single, min: nat, max: int, lazy: bool, possessive: bool)
    requires !x.Set? && (max == -1 || (0 < max && min <= max)) && !(possessive && min == 1 && max > 1)
    ensures var b := CodeSingle(x, min, max, lazy, possessive);
            && (b.hd.One? || b.hd.Rep?) && (b.tl.Cons? ==> b.tl.hd.Rep? && b.tl.hd.x == x)
            && BranchSize(b) == ItemSize(b.hd) + (if b.tl.Cons? then RepSize(x, b.tl.hd.kind) else 0)
            && ItemSize(b.hd) == (if b.hd.One? then SingleSize(x) else RepSize(x, b.hd.kind))
  {
    var b := CodeSingle(x, min, max, lazy, possessive);
    assert BranchSize(b.tl) == if b.tl.Cons? then ItemSize(b.tl.hd) else 0;
  }

  lemma KeptSame(c: seq<int>, p: nat)
    requires p <= |c|
    ensures Kept(c, c, p)
  {}

  lemma KeptLess(was: seq<int>, now: seq<int>, p: nat, q: nat)
    requires Kept(was, now, p) && q <= p
    ensures Kept(was, now, q)
  {}

  lemma KeptTwice(was: seq<int>, mid: seq<int>, now: seq<int>, p: nat)
    requires Kept(was, mid, p) && Kept(mid, now, p)
    ensures Kept(was, now, p)
  {}

  /** The repeat of a class follows the class. */
  method RepeatClass(buf: array<int>, previous: nat, oldcode: nat, x: Single, min: nat, max: int, lazy: bool)
    returns (code: nat)
    requires x.Set? && WFSingle(x) && (max == -1 || (0 < max && min <= max))
    requires SingleAt(buf[..], previous, x) && oldcode == previous + SingleSize(x)
    requires previous + BranchSize(CodeClass(x, min, max, lazy)) <= buf.Length
    modifies buf
    ensures code == previous + BranchSize(CodeClass(x, min, max, lazy))
    ensures BranchAt(buf[..], previous, CodeClass(x, min, max, lazy)) && Kept(old(buf[..]), buf[..], previous)
  {
    hide SingleAt, Kept, Get, BranchAt;
    code := oldcode;
    if min == 0 && max == -1 {
      code := PutClassRepeat(buf, code, Star, lazy);
    } else if min == 1 && max == -1 {
      code := PutClassRepeat(buf, code, Plus, lazy);
    } else if min == 0 && max == 1 {
      code := PutClassRepeat(buf, code, Query, lazy);
    } else {
      code := PutClassRepeat(buf, code, Range(min, if max == -1 then 0 else max), lazy);
    }
    ClassThere(old(buf[..]), buf[..], previous, x, CodeClass(x, min, max, lazy).hd.kind, lazy);
  }

  method PutClassRepeat(buf: array<int>, code: nat, kind: Kind, lazy: bool) returns (next: nat)
    requires code + (if kind.Range? then 5 else 1) <= buf.Length
    modifies buf
    ensures next == code + if kind.Range? then 5 else 1
    ensures buf[code] == OP_CRSTAR + KindOffset(kind) + Bit(lazy) && Kept(old(buf[..]), buf[..], code)
    ensures kind.Range? ==> Get(buf[..], code + 1) == kind.lo && Get(buf[..], code + 3) == kind.hi
  {
    buf[code] := OP_CRSTAR + KindOffset(kind) + Bit(lazy);
    next := code + 1;
    if kind.Range? {
      Put(buf, next, kind.lo);
      Put(buf, next + 2, kind.hi);
      next := next + 4;
    }
  }

  lemma ClassThere(was: seq<int>, now: seq<int>, p: nat, x: Single, k: Kind, lazy: bool)
    requires x.Set? && SingleAt(was, p, x) && Kept(was, now, p + 33) && p + RepSize(x, k) <= |now| && !k.Exact?
    requires now[p + 33] == OP_CRSTAR + KindOffset(k) + Bit(lazy)
    requires k.Range? ==> Get(now, p + 34) == k.lo && Get(now, p + 36) == k.hi
    ensures BranchAt(now, p, Cons(Rep(x, k, lazy), Nil)) && BranchSize(Cons(Rep(x, k, lazy), Nil)) == RepSize(x, k)
    ensures Kept(was, now, p)
  {
    CopiedPart(was, 0, p + 33, now, 0, p, 33);
    SingleMoved(was, p, x, now, 0);
    hide SingleAt, Copied;
    RepThere(now, p, x, k, lazy);
  }
}
