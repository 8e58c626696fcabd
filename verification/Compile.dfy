/** compile_branch() and compile_regex(): the pattern is compiled into the code
    buffer in place. While a group is open its ALT links lead backwards; closing
    it reverses the chain. */
module Compile {
  import opened Opcodes
  import opened Tree
  import opened Pattern
  import opened AutoPossess
  import opened Translate
  import opened FirstBytes
  import opened Layout
  import opened Emit
  import opened Replicate

  // ---- Groups still open ----

  /** The finished branches of an open group, newest first. */
  datatype Trail = Start | After(prev: Trail, b: Branch)

  function HeadLen(t: Trail, h: nat): nat { if t.Start? then h else 1 + LINK_SIZE }

  /** In the group with header at `p` the branch with header at `q` is being
      written. Links lead back from header to header, the first one holds 0. */
  predicate OpenAt(c: seq<int>, p: nat, h: nat, t: Trail, q: nat)
    decreases t
  {
    h >= 1 + LINK_SIZE && p <= q && q + HeadLen(t, h) <= |c| &&
    match t
    case Start => q == p && Get(c, q + 1) == 0
    case After(prev, b) =>
      var d := Get(c, q + 1);
      c[q] == OP_ALT && 0 < d <= q && OpenAt(c, p, h, prev, q - d) &&
      d == HeadLen(prev, h) + BranchSize(b) && BranchAt(c, q - d + HeadLen(prev, h), b)
  }

  /** All branches of the group, `a` being the ones not yet in the trail. */
  function Rejoin(t: Trail, a: Alts): Alts {
    match t
    case Start => a
    case After(prev, b) => Rejoin(prev, More(b, a))
  }

  lemma {:induction false} OpenKept(was: seq<int>, now: seq<int>, p: nat, h: nat, t: Trail, q: nat, x: nat)
    requires OpenAt(was, p, h, t, q) && Kept(was, now, x) && q + HeadLen(t, h) <= x
    ensures OpenAt(now, p, h, t, q)
    decreases t
  {
    hide BranchAt, BranchSize;
    if t.After? {
      var d := Get(was, q + 1);
      OpenKept(was, now, p, h, t.prev, q - d, x);
      BranchKept(was, now, x, q - d + HeadLen(t.prev, h), t.b);
    }
  }

  lemma OpenRange(c: seq<int>, p: nat, h: nat, t: Trail, q: nat)
    requires OpenAt(c, p, h, t, q)
    ensures h >= 1 + LINK_SIZE && p <= q && q + HeadLen(t, h) <= |c| && (t.Start? ==> p == q)
    ensures 0 <= Get(c, q + 1) <= q && (Get(c, q + 1) == 0 <==> t.Start?)
  {}

  /** A new ALT header after a finished branch. */
  lemma OpenMore(was: seq<int>, now: seq<int>, p: nat, h: nat, t: Trail, q: nat, b: Branch)
    requires OpenAt(was, p, h, t, q) && BranchAt(was, q + HeadLen(t, h), b)
    requires var x := q + HeadLen(t, h) + BranchSize(b); Kept(was, now, x) && x + 3 <= |now| && now[x] == OP_ALT && Get(now, x + 1) == x - q
    ensures OpenAt(now, p, h, After(t, b), q + HeadLen(t, h) + BranchSize(b))
  {
    hide BranchAt, BranchSize, OpenAt;
    var x := q + HeadLen(t, h) + BranchSize(b);
    OpenRange(was, p, h, t, q);
    OpenKept(was, now, p, h, t, q, x);
    BranchKept(was, now, x, q + HeadLen(t, h), b);
    OpenStep(now, p, h, t, q, b, x);
  }

  lemma OpenStep(c: seq<int>, p: nat, h: nat, t: Trail, q: nat, b: Branch, x: nat)
    requires OpenAt(c, p, h, t, q) && BranchAt(c, q + HeadLen(t, h), b) && x == q + HeadLen(t, h) + BranchSize(b)
    requires x + 3 <= |c| && c[x] == OP_ALT && Get(c, x + 1) == x - q && h >= 3
    ensures OpenAt(c, p, h, After(t, b), x)
  {
    hide BranchAt, BranchSize;
  }

  /** Writing the forward link of the newest open branch closes it. */
  lemma CloseStep(was: seq<int>, now: seq<int>, p: nat, h: nat, t: Trail, q: nat, a: Alts)
    requires OpenAt(was, p, h, t, q) && BranchAt(was, q + HeadLen(t, h), a.b)
    requires var x := q + HeadLen(t, h) + BranchSize(a.b);
             && (a.More? ==> x < |was| && was[x] == OP_ALT && AltsAt(was, x, 1 + LINK_SIZE, a.rest))
             && |now| == |was| && q + 2 < |now| && Get(now, q + 1) == x - q
    requires forall y :: 0 <= y < |was| && y != q + 1 && y != q + 2 ==> now[y] == was[y]
    ensures AltsAt(now, q, HeadLen(t, h), a)
    ensures t.After? ==>
              var d := Get(was, q + 1);
              0 < d <= q && p <= q - d && OpenAt(now, p, h, t.prev, q - d) && BranchAt(now, q - d + HeadLen(t.prev, h), t.b) &&
              d == HeadLen(t.prev, h) + BranchSize(t.b) && now[q] == OP_ALT
    ensures t.Start? ==> p == q && Get(was, q + 1) == 0
  {
    hide BranchAt, BranchSize, AltsAt, Get, OpenAt;
    var x := q + HeadLen(t, h) + BranchSize(a.b);
    OpenRange(was, p, h, t, q);
    BranchFits(was, q + HeadLen(t, h), a.b);
    assert Copied(was, q + HeadLen(t, h), BranchSize(a.b), now, 0);
    BranchMoved(was, q + HeadLen(t, h), a.b, now, 0);
    if a.More? {
      AltsFits(was, x, 1 + LINK_SIZE, a.rest);
      assert Copied(was, x, AltsSize(1 + LINK_SIZE, a.rest), now, 0);
      AltsMoved(was, x, 1 + LINK_SIZE, a.rest, now, 0);
    }
    AltsHere(now, q, HeadLen(t, h), a);
    assert Kept(was, now, q);
    if t.After? {
      OpenPrev(was, p, h, t, q);
      var d := Get(was, q + 1);
      OpenKept(was, now, p, h, t.prev, q - d, q);
      BranchKept(was, now, q, q - d + HeadLen(t.prev, h), t.b);
    } else {
      OpenPrev(was, p, h, t, q);
    }
  }

  lemma OpenPrev(c: seq<int>, p: nat, h: nat, t: Trail, q: nat)
    requires OpenAt(c, p, h, t, q)
    ensures q + 2 < |c|
    ensures t.Start? ==> q == p && Get(c, q + 1) == 0
    ensures t.After? ==> var d := Get(c, q + 1);
              && c[q] == OP_ALT && 0 < d <= q && p <= q - d && OpenAt(c, p, h, t.prev, q - d) && q - d + HeadLen(t.prev, h) + BranchSize(t.b) <= q
              && d == HeadLen(t.prev, h) + BranchSize(t.b) && BranchAt(c, q - d + HeadLen(t.prev, h), t.b)
  {
    hide BranchAt, BranchSize;
  }

  lemma AltsFits(c: seq<int>, p: nat, h: nat, a: Alts)
    requires AltsAt(c, p, h, a)
    ensures p + AltsSize(h, a) <= |c|
  {}

  lemma AltsHere(c: seq<int>, q: nat, h: nat, a: Alts)
    requires h >= 3 && BranchAt(c, q + h, a.b) && q + 2 < |c| && Get(c, q + 1) == h + BranchSize(a.b)
    requires var x := q + h + BranchSize(a.b); a.More? ==> x < |c| && c[x] == OP_ALT && AltsAt(c, x, 1 + LINK_SIZE, a.rest)
    ensures AltsAt(c, q, h, a)
  {
    hide BranchAt;
    BranchFits(c, q + h, a.b);
    if a.More? { AltsFits(c, q + h + BranchSize(a.b), 1 + LINK_SIZE, a.rest); }
  }

  lemma FurtherOn(c: seq<int>, p: nat, h: nat, t: Trail, q: nat)
    requires OpenAt(c, p, h, t, q)
    ensures t.Start? ==> p == q
    ensures t.After? ==> p + h <= q
    decreases t
  {
    hide BranchAt, BranchSize;
    if t.After? { FurtherOn(c, p, h, t.prev, q - Get(c, q + 1)); }
  }

  lemma RejoinStep(t: Trail, a: Alts)
    ensures t.Start? ==> Rejoin(t, a) == a
    ensures t.After? ==> Rejoin(t, a) == Rejoin(t.prev, More(t.b, a))
  {}

  // ---- Sizes ----

  lemma CharRoom(x: Single, q: Quant, next: PBranch)
    requires WFSingle(x) && WFQuant(q)
    ensures SingleSize(x) <= BranchSize(CodePiece(Char(x, q), next, 0))
    ensures q.Quant? && x.Set? && q.possessive ==>
              BranchSize(CodePiece(Char(x, q), next, 0)) == BranchSize(CodeClass(x, q.min, q.max, false)) + 2 + 2 * LINK_SIZE
  {
    hide Possessify, Wrapped;
    PossessifyMax(x, q, next);
    if q.None? {
      assert BranchSize(Cons(One(x), Nil)) == SingleSize(x);
    } else if x.Set? {
      WrappedSize(CodeClass(x, q.min, q.max, false));
    } else {
      SingleRoom(x, q.min, q.max, q.lazy, q.possessive || Possessify(x, q, next));
    }
  }

  lemma SingleRoom(x: Single, min: nat, max: int, lazy: bool, possessive: bool)
    requires WFSingle(x) && !x.Set? && (max == -1 || (0 < max && min <= max))
    ensures SingleSize(x) <= BranchSize(CodeSingle(x, min, max, lazy, possessive))
  {
    SingleSizes(x, min, max, false, false);
    if possessive && min == 1 && max > 1 {
      hide BranchSize;
      WrappedSize(CodeSingle(x, min, max, false, false));
    } else {
      SingleSizes(x, min, max, lazy, possessive);
    }
  }

  lemma RepeatedRoom(g: Item, min: nat, max: int, lazy: bool, possessive: bool)
    requires g.Bra? && (max == -1 || (0 < max && min <= max))
    ensures ItemSize(g) <= BranchSize(Repeated(g, min, max, lazy, possessive))
  {
    hide ItemSize, BranchSize, Nested, Copies, Looping;
    LoopingSize([], 0, g, lazy, possessive);
    if min == 0 {
      ZeroSizes(g, max, lazy, possessive);
    } else if max == -1 {
      CopiesThen([], 0, g, min - 1, Cons(Looping(g, lazy, possessive), Nil));
    } else {
      CopiesThen([], 0, g, min, Nested(g, max - min, lazy));
      CopiesThen([], 0, g, min - 1, Nil);
    }
  }

  lemma GroupRoom(g: Item, q: Quant)
    requires g.Bra? && WFQuant(q)
    ensures ItemSize(g) <= BranchSize(CodeGroup(g, q))
  {
    hide ItemSize, BranchSize, Repeated, Wrapped;
    OneAt([], 0, g);
    if q.Quant? {
      RepeatedRoom(g, q.min, q.max, q.lazy, q.possessive);
      RepeatedRoom(g, q.min, q.max, false, false);
      WrappedSize(Repeated(g, q.min, q.max, false, false));
    }
  }

  lemma GroupShape(p: Piece, next: PBranch, n: nat)
    requires p.Group? && WFPiece(p)
    ensures var n' := if p.capturing then n + 1 else n;
            var g := Bra(if p.capturing then n + 1 else 0, CodeAlts(p.alts, n'), Once);
            && WFPAlts(p.alts) && WFQuant(p.q) && ShapedItem(g) && CodePiece(p, next, n) == CodeGroup(g, p.q)
            && ItemSize(g) == AltsSize(HeadSize(g.cap), g.alts) + 3 && AltsSize(HeadSize(g.cap), g.alts) >= HeadSize(g.cap)
  {
    hide NullAlts, CodeGroup, CodeAlts, AltsSize;
    AltsShaped(p.alts, if p.capturing then n + 1 else n);
  }

  /** Only the link changes among the cells up to the end of the header. */
  predicate Untouched(was: seq<int>, now: seq<int>, p: nat, h: nat) {
    |was| == |now| && forall y :: 0 <= y < |was| && (y <= p || p + 3 <= y < p + h) ==> now[y] == was[y]
  }

  lemma StillUntouched(was: seq<int>, mid: seq<int>, now: seq<int>, p: nat, h: nat, x: nat, q: nat)
    requires Untouched(was, mid, p, h) && Kept(mid, now, x) && p + h <= x && p < x
    ensures Untouched(was, now, p, h) && (q < x ==> now[q] == mid[q])
  {}

  /** A group whose branches and ket have been written. */
  lemma GroupThere(was: seq<int>, mid: seq<int>, now: seq<int>, p: nat, g: Item, code: nat)
    requires g.Bra? && g.ket.Once? && Kept(was, mid, p) && Untouched(mid, now, p, HeadSize(g.cap))
    requires code == p + AltsSize(HeadSize(g.cap), g.alts) + 3 <= |now| && AltsAt(now, p, HeadSize(g.cap), g.alts)
    requires mid[p] == (if g.cap > 0 then OP_CBRA else OP_BRA) && (g.cap > 0 ==> p + 4 < |mid| && Get(mid, p + 3) == g.cap)
    requires now[code - 3] == OP_KET && Get(now, code - 2) == code - 3 - p
    ensures ItemAt(now, p, g) && ItemSize(g) == code - p && Kept(was, now, p)
  {
    hide AltsAt, AltsSize, ItemAt;
    assert g.cap > 0 ==> Get(now, p + 3) == Get(mid, p + 3);
    BraThere(now, p, g, code - 3);
  }

  lemma GroupOnce(p: Piece, next: PBranch, n: nat, g: Item)
    requires p.Group? && WFPiece(p) && p.q.None? && g.Bra? && CodePiece(p, next, n) == CodeGroup(g, p.q)
    ensures CodePiece(p, next, n) == Cons(g, Nil)
  {
    hide CodePiece;
  }

  lemma NilThere(c: seq<int>, p: nat)
    requires p <= |c|
    ensures BranchAt(c, p, Nil) && BranchSize(Nil) == 0 && Kept(c, c, p)
  {}

  lemma PieceFits(done: Branch, piece: Branch, after: Branch, whole: Branch)
    requires Append(done, Append(piece, after)) == whole
    ensures BranchSize(done) + BranchSize(piece) <= BranchSize(whole)
  {
    hide BranchSize;
    AppendAt([], 0, done, Append(piece, after));
    AppendAt([], 0, piece, after);
  }

  lemma AltsRoom(h: nat, a: Alts)
    ensures AltsSize(h, a) == h + BranchSize(a.b) + if a.More? then AltsSize(1 + LINK_SIZE, a.rest) else 0
    ensures a.More? ==> AltsSize(1 + LINK_SIZE, a.rest) >= 3
  {
    hide BranchSize;
  }

  lemma OpenStart(c: seq<int>, p: nat, h: nat)
    requires h >= 3 && p + h <= |c| && Get(c, p + 1) == 0
    ensures OpenAt(c, p, h, Start, p)
  {}

  lemma AltWritten(was: seq<int>, now: seq<int>, p: nat)
    requires |was| == |now| && p <= |was| && forall y :: 0 <= y < p ==> now[y] == was[y]
    ensures Kept(was, now, p)
  {}

  lemma RejoinAfter(t: Trail, b: Branch, a: Alts)
    ensures Rejoin(After(t, b), a) == Rejoin(t, More(b, a))
  {}

  lemma KetWritten(was: seq<int>, now: seq<int>, p: nat, h: nat, a: Alts, q: nat)
    requires AltsAt(was, p, h, a) && q == p + AltsSize(h, a) && Kept(was, now, q)
    ensures AltsAt(now, p, h, a)
  {
    hide AltsAt, AltsSize;
    CopiedPart(was, 0, q, now, 0, p, AltsSize(h, a));
    AltsMoved(was, p, h, a, now, 0);
  }

  /** The state kept while compiling, apart from the buffer's contents. */
  class CompileData {
    const buf: array<int>
    var bracount: nat
    var req_varyopt: bool

    constructor (buf: array<int>)
      ensures this.buf == buf && bracount == 0 && !req_varyopt
    {
      this.buf, bracount, req_varyopt := buf, 0, false;
    }

    /** Reverse the chain of an open group whose last branch ends at `code`. */
    method ReverseLinks(start: nat, last: nat, code: nat, ghost h: nat, ghost t: Trail, ghost b: Branch)
      requires OpenAt(buf[..], start, h, t, last) && BranchAt(buf[..], last + HeadLen(t, h), b)
      requires code == last + HeadLen(t, h) + BranchSize(b)
      modifies buf
      ensures AltsAt(buf[..], start, h, Rejoin(t, Last(b))) && code == start + AltsSize(h, Rejoin(t, Last(b)))
      ensures Untouched(old(buf[..]), buf[..], start, h)
    {
      hide OpenAt, BranchAt, BranchSize, AltsAt, Get, Rejoin;
      var last_branch, branch_length := last, code - last;
      ghost var t', a: Alts := t, Last(b);
      OpenRange(buf[..], start, h, t, last);
      BranchFits(buf[..], last + HeadLen(t, h), b);
      while true
        invariant start <= last_branch && OpenAt(buf[..], start, h, t', last_branch)
        invariant BranchAt(buf[..], last_branch + HeadLen(t', h), a.b) && branch_length == HeadLen(t', h) + BranchSize(a.b)
        invariant last_branch + HeadLen(t', h) + BranchSize(a.b) <= buf.Length
        invariant a.More? ==> var x := last_branch + branch_length;
                    x < buf.Length && buf[x] == OP_ALT && AltsAt(buf[..], x, 1 + LINK_SIZE, a.rest)
        invariant Rejoin(t', a) == Rejoin(t, Last(b)) && last_branch + AltsSize(HeadLen(t', h), a) == code
        invariant forall y :: 0 <= y < buf.Length && (y <= start || start + 3 <= y < start + h) ==> buf[y] == old(buf[y])
        decreases t'
      {
        OpenPrev(buf[..], start, h, t', last_branch);
        OpenRange(buf[..], start, h, t', last_branch);
        ghost var was := buf[..];
        var prev_length := Get(buf[..], last_branch + 1);
        Put(buf, last_branch + 1, branch_length);
        CloseStep(was, buf[..], start, h, t', last_branch, a);
        branch_length := prev_length;
        last_branch := last_branch - branch_length;
        RejoinStep(t', a);
        if branch_length <= 0 { break; }
        FurtherOn(buf[..], start, h, t'.prev, last_branch);
        t', a := t'.prev, More(t'.b, a);
      }
    }

    /** A character, type, class or position, or a group, with its quantifier.
        `first` and `req` are the first and required byte of the branch so far. */
    method CompilePiece(start: nat, p: Piece, next: PBranch, first: Req, req: Req) returns (code: nat, firstbyte: Req, reqbyte: Req)
      requires WFPiece(p) && start + BranchSize(CodePiece(p, next, bracount)) <= buf.Length
      modifies this, buf
      ensures code == start + BranchSize(CodePiece(p, next, old(bracount))) && BranchAt(buf[..], start, CodePiece(p, next, old(bracount)))
      ensures Kept(old(buf[..]), buf[..], start)
      ensures bracount == old(bracount) + Captures(p) && req_varyopt == (old(req_varyopt) || VaryPiece(p))
      ensures Bytes(firstbyte, reqbyte) == PieceBytes(p, Bytes(first, req), old(req_varyopt))
      decreases p, 1
    {
      match p
      case Place(op) =>
        firstbyte, reqbyte := first, req;
        if op == OP_CIRCM && firstbyte.Unset? { firstbyte := NoByte; }
        buf[start] := op;
        code := start + 1;
        OneAt(buf[..], start, Zero(op));
      case Char(x, q) =>
        code, firstbyte, reqbyte := CompileChar(start, x, q, next, first, req);
      case Group(_, _, _) =>
        code, firstbyte, reqbyte := CompileGroup(start, p, next, first, req);
    }

    method CompileChar(start: nat, x: Single, q: Quant, next: PBranch, first: Req, req: Req)
      returns (code: nat, firstbyte: Req, reqbyte: Req)
      requires WFSingle(x) && WFQuant(q) && start + BranchSize(CodePiece(Char(x, q), next, bracount)) <= buf.Length
      modifies this, buf
      ensures bracount == old(bracount) && req_varyopt == (old(req_varyopt) || VaryQuant(q))
      ensures code == start + BranchSize(CodePiece(Char(x, q), next, bracount)) && BranchAt(buf[..], start, CodePiece(Char(x, q), next, bracount))
      ensures Kept(old(buf[..]), buf[..], start)
      ensures Bytes(firstbyte, reqbyte) == PieceBytes(Char(x, q), Bytes(first, req), old(req_varyopt))
    {
      hide BranchAt, BranchSize, CodeSingle, CodeClass, SingleAt, Kept, AutoPossessive, Wrapped;
      CharRoom(x, q, next);
      firstbyte, reqbyte := first, req;
      var zerofirstbyte, zeroreqbyte := first, req;
      if x.Chr? {
        if firstbyte.Unset? {
          zerofirstbyte := NoByte;
          firstbyte := Byte(x.c, false);
        } else {
          reqbyte := Byte(x.c, req_varyopt);
        }
      } else {
        if firstbyte.Unset? { firstbyte := NoByte; }
        zerofirstbyte := firstbyte;
      }
      ghost var was := buf[..];
      code := EmitSingle(buf, start, x);
      ghost var mid := buf[..];
      if q.None? {
        OneThere(mid, start, x);
        OneAt(mid, start, One(x));
      } else {
        if q.min == 0 { firstbyte, reqbyte := zerofirstbyte, zeroreqbyte; }
        if x.Chr? && q.min > 1 { reqbyte := Byte(x.c, req_varyopt); }
        if x.Set? {
          code := RepeatClass(buf, start, code, x, q.min, q.max, q.lazy);
          KeptTwice(was, mid, buf[..], start);
          if q.possessive {
            ghost var made := buf[..];
            code := WrapOnce(buf, start, code, CodeClass(x, q.min, q.max, false));
            KeptTwice(was, made, buf[..], start);
          }
        } else {
          code := RepeatSingle(buf, start, code, x, q.min, q.max, q.lazy, q.possessive || (q.max < 0 && AutoPossessive(x, next)));
          KeptTwice(was, mid, buf[..], start);
        }
        if q.min != q.max { req_varyopt := true; }
      }
    }

    method CompileGroup(start: nat, p: Piece, ghost next: PBranch, first: Req, req: Req)
      returns (code: nat, firstbyte: Req, reqbyte: Req)
      requires p.Group? && WFPiece(p) && start + BranchSize(CodePiece(p, next, bracount)) <= buf.Length
      modifies this, buf
      ensures code == start + BranchSize(CodePiece(p, next, old(bracount))) && BranchAt(buf[..], start, CodePiece(p, next, old(bracount)))
      ensures Kept(old(buf[..]), buf[..], start)
      ensures bracount == old(bracount) + Captures(p) && req_varyopt == (old(req_varyopt) || VaryPiece(p))
      ensures Bytes(firstbyte, reqbyte) == PieceBytes(p, Bytes(first, req), old(req_varyopt))
      decreases p, 0
    {
      hide BranchAt, BranchSize, CodeAlts, Kept, ItemAt, AltsAt, ItemSize, CodeGroup, ShapedItem, WFPAlts, AltsSize, Get, AltsBytes, GroupBytes;
      var q := p.q;
      ghost var was, n := buf[..], bracount;
      ghost var n' := if p.capturing then n + 1 else n;
      ghost var g := Bra(if p.capturing then n + 1 else 0, CodeAlts(p.alts, n'), Once);
      GroupRoom(g, q);
      GroupShape(p, next, n);
      var skipbytes := OpenBracket(start, p.capturing);
      var tempreqvary := req_varyopt;
      ghost var mid := buf[..];
      var subfirstbyte, subreqbyte;
      code, subfirstbyte, subreqbyte := CompileRegex(start, skipbytes, p.alts);
      GroupThere(was, mid, buf[..], start, g, code);
      firstbyte, reqbyte := GroupNeeds(first, req, subfirstbyte, subreqbyte, tempreqvary, q);
      if q.None? {
        OneAt(buf[..], start, g);
        GroupOnce(p, next, n, g);
      } else {
        ghost var made := buf[..];
        code := RepeatGroup(buf, start, code, q, g);
        KeptTwice(was, made, buf[..], start);
        if q.min != q.max { req_varyopt := true; }
      }
    }

    /** The opcode of a group, and its number if it captures. */
    method OpenBracket(start: nat, capturing: bool) returns (skipbytes: nat)
      requires start + (if capturing then 5 else 3) <= buf.Length
      modifies this, buf
      ensures skipbytes == (if capturing then 2 else 0) && req_varyopt == old(req_varyopt)
      ensures bracount == old(bracount) + (if capturing then 1 else 0)
      ensures buf[start] == (if capturing then OP_CBRA else OP_BRA) && (capturing ==> Get(buf[..], start + 1 + LINK_SIZE) == bracount)
      ensures Kept(old(buf[..]), buf[..], start)
    {
      skipbytes := 0;
      var bravalue := OP_BRA;
      if capturing {
        bravalue := OP_CBRA;
        bracount := bracount + 1;
        Put(buf, start + 1 + LINK_SIZE, bracount);
        skipbytes := 2;
      }
      buf[start] := bravalue;
    }

    /** The first and required bytes after a group; a zero minimum goes back to
        what they were before it. */
    method GroupNeeds(first: Req, req: Req, subfirst: Req, subreq: Req, tempreqvary: bool, q: Quant)
      returns (firstbyte: Req, reqbyte: Req)
      ensures Bytes(firstbyte, reqbyte) == GroupBytes(Bytes(subfirst, subreq), q, Bytes(first, req), tempreqvary)
    {
      firstbyte, reqbyte := first, req;
      var subreqbyte := subreq;
      var zeroreqbyte, zerofirstbyte, groupsetfirstbyte := reqbyte, firstbyte, false;
      if firstbyte.Unset? {
        if subfirst.Byte? {
          firstbyte := subfirst;
          groupsetfirstbyte := true;
        } else {
          firstbyte := NoByte;
        }
        zerofirstbyte := NoByte;
      } else if subfirst.Byte? && !subreqbyte.Byte? {
        subreqbyte := Byte(subfirst.c, tempreqvary);
      }
      if subreqbyte.Byte? { reqbyte := subreqbyte; }
      if q.Quant? && q.min == 0 { firstbyte, reqbyte := zerofirstbyte, zeroreqbyte; }
      if q.Quant? && q.min > 1 && groupsetfirstbyte && !reqbyte.Byte? { reqbyte := firstbyte; }
    }

    /** One branch, item by item. */
    method CompileBranch(start: nat, t: PBranch) returns (code: nat, firstbyte: Req, reqbyte: Req)
      requires WFPBranch(t) && start + BranchSize(CodeBranch(t, bracount)) <= buf.Length
      modifies this, buf
      ensures code == start + BranchSize(CodeBranch(t, old(bracount))) && BranchAt(buf[..], start, CodeBranch(t, old(bracount)))
      ensures Kept(old(buf[..]), buf[..], start)
      ensures bracount == old(bracount) + BranchCaptures(t) && req_varyopt == (old(req_varyopt) || VaryBranch(t))
      ensures Bytes(firstbyte, reqbyte) == BranchBytes(t, NOTHING, old(req_varyopt))
      decreases t, 0
    {
      hide BranchAt, BranchSize, Kept, CodePiece, WFPiece, PieceBytes, Captures, VaryPiece;
      code, firstbyte, reqbyte := start, Unset, Unset;
      ghost var was, n0, vary0, whole := buf[..], bracount, req_varyopt, CodeBranch(t, bracount);
      var rest := t;
      ghost var done := Nil;
      NilThere(was, start);
      while rest.Then?
        invariant (rest == t || rest < t) && WFPBranch(rest)
        invariant BranchAt(buf[..], start, done) && code == start + BranchSize(done) && Kept(was, buf[..], start)
        invariant Append(done, CodeBranch(rest, bracount)) == whole
        invariant BranchBytes(rest, Bytes(firstbyte, reqbyte), req_varyopt) == BranchBytes(t, NOTHING, vary0)
        invariant bracount + BranchCaptures(rest) == n0 + BranchCaptures(t)
        invariant (req_varyopt || VaryBranch(rest)) == (vary0 || VaryBranch(t))
        decreases rest
      {
        ghost var mid, n, code' := buf[..], bracount, code;
        ghost var piece, after := CodePiece(rest.hd, rest.tl, n), CodeBranch(rest.tl, n + Captures(rest.hd));
        PieceFits(done, piece, after, whole);
        code, firstbyte, reqbyte := CompilePiece(code, rest.hd, rest.tl, firstbyte, reqbyte);
        BranchKept(mid, buf[..], code', start, done);
        AppendAt(buf[..], start, done, piece);
        AppendAssoc(done, piece, after);
        KeptLess(mid, buf[..], code', start);
        KeptTwice(was, mid, buf[..], start);
        done := Append(done, piece);
        rest := rest.tl;
      }
      AppendAssoc(done, Nil, Nil);
    }

    /** The branches of the group whose opcode is at `start`; `skipbytes` cells
        of its header follow the link. */
    method CompileRegex(start: nat, skipbytes: nat, a: PAlts) returns (code: nat, firstbyte: Req, reqbyte: Req)
      requires WFPAlts(a) && start + AltsSize(1 + LINK_SIZE + skipbytes, CodeAlts(a, bracount)) + 3 <= buf.Length && buf[start] != OP_ALT
      modifies this, buf
      ensures var h := 1 + LINK_SIZE + skipbytes; var alts := CodeAlts(a, old(bracount));
              && code == start + AltsSize(h, alts) + 3 <= buf.Length && AltsAt(buf[..], start, h, alts)
              && buf[code - 3] == OP_KET && Get(buf[..], code - 2) == code - 3 - start
      ensures Untouched(old(buf[..]), buf[..], start, 1 + LINK_SIZE + skipbytes)
      ensures bracount == old(bracount) + AltsCaptures(a) && req_varyopt == (old(req_varyopt) || VaryAlts(a))
      ensures Bytes(firstbyte, reqbyte) == AltsBytes(a, old(req_varyopt))
      decreases a, 1
    {
      hide OpenAt, BranchAt, BranchSize, Kept, Get, CodeBranch, WFPBranch, BranchBytes, Merge, BranchCaptures, VaryBranch, Rejoin, AltsSize, AltsAt;
      ghost var h := 1 + LINK_SIZE + skipbytes;
      ghost var was, n0, vary0, whole := buf[..], bracount, req_varyopt, CodeAlts(a, bracount);
      var last_branch := start;
      firstbyte, reqbyte := Unset, Unset;
      AltsRoom(h, whole);
      Put(buf, start + 1, 0);
      code := start + 1 + LINK_SIZE + skipbytes;
      var rest := a;
      ghost var t := Start;
      OpenStart(buf[..], start, h);
      RejoinStep(Start, whole);
      while true
        invariant (rest == a || rest < a) && (t.Start? <==> rest == a) && WFPAlts(rest)
        invariant start <= last_branch && OpenAt(buf[..], start, h, t, last_branch) && code == last_branch + HeadLen(t, h)
        invariant Rejoin(t, CodeAlts(rest, bracount)) == whole
        invariant last_branch + AltsSize(HeadLen(t, h), CodeAlts(rest, bracount)) == start + AltsSize(h, whole)
        invariant start + h <= code && (buf[last_branch] == OP_ALT <==> !t.Start?)
        invariant AltsBytes(a, vary0) == if t.Start? then AltsBytes(rest, req_varyopt) else FoldBytes(Bytes(firstbyte, reqbyte), rest, req_varyopt)
        invariant bracount + AltsCaptures(rest) == n0 + AltsCaptures(a)
        invariant (req_varyopt || VaryAlts(rest)) == (vary0 || VaryAlts(a))
        invariant Untouched(was, buf[..], start, h)
        decreases rest
      {
        ghost var mid, code', n, vary := buf[..], code, bracount, req_varyopt;
        ghost var b := CodeBranch(rest.b, n);
        OpenRange(mid, start, h, t, last_branch);
        AltsRoom(HeadLen(t, h), CodeAlts(rest, n));
        var branchfirstbyte, branchreqbyte;
        code, branchfirstbyte, branchreqbyte := CompileBranch(code, rest.b);
        OpenKept(mid, buf[..], start, h, t, last_branch, code');
        StillUntouched(was, mid, buf[..], start, h, code', last_branch);
        if buf[last_branch] != OP_ALT {
          firstbyte, reqbyte := branchfirstbyte, branchreqbyte;
        } else {
          firstbyte, reqbyte := MergeBytes(firstbyte, reqbyte, branchfirstbyte, branchreqbyte);
        }
        if rest.Only? { break; }
        ghost var full := buf[..];
        AddAlt(code, last_branch, start, h, t, b);
        StillUntouched(was, full, buf[..], start, h, code, last_branch);
        RejoinAfter(t, b, CodeAlts(rest.rest, bracount));
        last_branch := code;
        code := code + 1 + LINK_SIZE;
        t := After(t, b);
        rest := rest.rest;
      }
      ghost var b := CodeBranch(rest.b, bracount - BranchCaptures(rest.b));
      CloseGroup(start, last_branch, code, h, t, b);
      code := code + 1 + LINK_SIZE;
    }

    /** An ALT after a finished branch; its link leads back to that branch. */
    method AddAlt(code: nat, last_branch: nat, ghost start: nat, ghost h: nat, ghost t: Trail, ghost b: Branch)
      requires OpenAt(buf[..], start, h, t, last_branch) && BranchAt(buf[..], last_branch + HeadLen(t, h), b)
      requires code == last_branch + HeadLen(t, h) + BranchSize(b) && code + 3 <= buf.Length
      modifies buf
      ensures OpenAt(buf[..], start, h, After(t, b), code) && start + h <= code && buf[code] == OP_ALT
      ensures Kept(old(buf[..]), buf[..], code)
    {
      hide OpenAt, BranchAt, BranchSize, Get;
      ghost var was := buf[..];
      OpenRange(was, start, h, t, last_branch);
      buf[code] := OP_ALT;
      Put(buf, code + 1, code - last_branch);
      AltWritten(was, buf[..], code);
      OpenMore(was, buf[..], start, h, t, last_branch, b);
      FurtherOn(buf[..], start, h, After(t, b), code);
    }

    /** Reverse the links and fill in the ket. */
    method CloseGroup(start: nat, last: nat, code: nat, ghost h: nat, ghost t: Trail, ghost b: Branch)
      requires OpenAt(buf[..], start, h, t, last) && BranchAt(buf[..], last + HeadLen(t, h), b)
      requires code == last + HeadLen(t, h) + BranchSize(b) && code + 3 <= buf.Length
      modifies buf
      ensures AltsAt(buf[..], start, h, Rejoin(t, Last(b))) && code == start + AltsSize(h, Rejoin(t, Last(b)))
      ensures buf[code] == OP_KET && Get(buf[..], code + 1) == code - start
      ensures Untouched(old(buf[..]), buf[..], start, h)
    {
      hide OpenAt, BranchAt, BranchSize, AltsAt, AltsSize, Get, Rejoin;
      OpenRange(buf[..], start, h, t, last);
      ReverseLinks(start, last, code, h, t, b);
      ghost var closed := buf[..];
      buf[code] := OP_KET;
      Put(buf, code + 1, code - start);
      AltWritten(closed, buf[..], code);
      KetWritten(closed, buf[..], start, h, Rejoin(t, Last(b)), code);
    }

    /** What the branches so far need and what one more needs. */
    method MergeBytes(first: Req, req: Req, branchfirst: Req, branchreq: Req) returns (firstbyte: Req, reqbyte: Req)
      ensures Bytes(firstbyte, reqbyte) == Merge(Bytes(first, req), Bytes(branchfirst, branchreq))
    {
      firstbyte, reqbyte := first, req;
      var branchreqbyte := branchreq;
      if firstbyte.Byte? && firstbyte != branchfirst {
        if !reqbyte.Byte? { reqbyte := firstbyte; }
        firstbyte := NoByte;
      }
      if !firstbyte.Byte? && branchfirst.Byte? && !branchreqbyte.Byte? { branchreqbyte := branchfirst; }
      if reqbyte.Byte? && branchreqbyte.Byte? && reqbyte.c == branchreqbyte.c {
        reqbyte := Byte(reqbyte.c, reqbyte.vary || branchreqbyte.vary);
      } else if reqbyte != branchreqbyte {
        reqbyte := NoByte;
      }
    }
  }
}
