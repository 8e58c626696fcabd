/** The pre-compile phase: the length of the code is worked out before any of it
    is written. Only positions in the work space are followed here. */
module Measure {
  import opened Opcodes
  import opened Tree
  import opened Pattern
  import opened AutoPossess
  import opened Translate
  import opened Layout
  import opened Emit
  import opened Replicate
  import opened Compile

  // ---- Closed formulas for replicated groups ----

  /** Each nested copy but the last costs a prefix and a bracket pair. */
  lemma {:induction false} NestedFormula(g: Item, k: nat, lazy: bool)
    requires k > 0
    ensures BranchSize(Nested(g, k, lazy)) == k * (ItemSize(g) + 1 + 2 + 2 * LINK_SIZE) - 2 - 2 * LINK_SIZE
    decreases k
  {
    hide ItemSize, Nested, BranchSize;
    NestedSize(g, k, lazy);
    if k > 1 {
      NestedFormula(g, k - 1, lazy);
      Distribute(k, ItemSize(g) + 7);
    } else {
      Distribute(1, ItemSize(g) + 7);
    }
  }

  lemma Distribute(k: nat, x: int)
    requires k > 0
    ensures k * x == (k - 1) * x + x
  {}

  lemma {:induction false} CopiesFormula(g: Item, n: nat, rest: Branch)
    ensures BranchSize(Copies(g, n, rest)) == n * ItemSize(g) + BranchSize(rest)
    decreases n
  {
    hide ItemSize;
    if n > 0 {
      CopiesFormula(g, n - 1, rest);
      Distribute(n, ItemSize(g));
    }
  }

  // ---- The pre-compile phase ----

  /** Where writing stands in the work space. `previous` is the item that a
      quantifier would apply to, -1 if there is none. */
  datatype Cursor = Cursor(length: int, code: nat, last_code: nat, previous: int)

  /** The start of each cycle: count what was written, then move the last item
      back to the start of the work space. */
  function Flush(c: Cursor, orig_code: nat): Cursor
    requires orig_code <= c.code && (c.previous == -1 || orig_code <= c.previous <= c.code)
  {
    var code := if c.code < c.last_code then c.last_code else c.code;
    var length := c.length + code - c.last_code;
    if c.previous == -1 then Cursor(length, orig_code, orig_code, -1)
    else if c.previous > orig_code then Cursor(length, code - (c.previous - orig_code), code - (c.previous - orig_code), orig_code)
    else Cursor(length, code, code, c.previous)
  }

  /** A character or type with a quantifier. A possessive one changes an opcode,
      or puts atomic brackets around an item that is followed by its repeat. */
  method MeasureSingle(c: Cursor, x: Single, min: nat, max: int, lazy: bool, possessive: bool) returns (code: nat)
    requires WFSingle(x) && !x.Set? && (max == -1 || (0 < max && min <= max))
    requires 0 <= c.previous && c.code == c.previous + SingleSize(x)
    ensures code == c.previous + BranchSize(CodeSingle(x, min, max, lazy, possessive)) >= c.code
  {
    hide BranchSize, CodeSingle;
    SingleFormula(x, min, max, lazy, possessive);
    code := c.previous;
    if min == 0 {
      code := code + if max == -1 || max == 1 then 1 else 3;
    } else if min == 1 {
      if max == -1 {
        code := code + 1;
      } else {
        code := c.code;
        if max == 1 { return; }
        code := code + 3;
      }
    } else {
      code := code + 3;
      if max < 0 {
        code := code + 2;
      } else if max != min {
        code := code + (if max - min == 1 then 2 else 4);
      }
    }
    code := code + 1;
    if possessive && min == 1 && max != -1 { code := code + 2 + 2 * LINK_SIZE; }
  }

  lemma SingleFormula(x: Single, min: nat, max: int, lazy: bool, possessive: bool)
    requires !x.Set? && (max == -1 || (0 < max && min <= max))
    ensures var size := BranchSize(CodeSingle(x, min, max, lazy, possessive)); var one := SingleSize(x);
            && (min == 0 ==> size == if max == -1 || max == 1 then 2 else 4)
            && (min == 1 ==> size == if max == -1 then 2 else if max == 1 then one else one + 4 + if possessive then 2 + 2 * LINK_SIZE else 0)
            && (min > 1 ==> size == 4 + if max == min then 0 else if max == -1 || max - min == 1 then 2 else 4)
  {
    if possessive && min == 1 && max > 1 {
      SamePossessive(x, min, max, lazy);
      SingleSizes(x, min, max, false, false);
    } else {
      SingleSizes(x, min, max, lazy, possessive);
    }
  }

  method MeasureClass(c: Cursor, x: Single, min: nat, max: int, lazy: bool, possessive: bool) returns (code: nat)
    requires WFSingle(x) && x.Set? && (max == -1 || (0 < max && min <= max))
    requires 0 <= c.previous && c.code == c.previous + SingleSize(x)
    ensures var b := CodeClass(x, min, max, lazy);
            code == c.previous + BranchSize(if possessive then Wrapped(b) else b) >= c.code
  {
    hide Wrapped;
    OneAt([], 0, CodeClass(x, min, max, lazy).hd);
    WrappedSize(CodeClass(x, min, max, lazy));
    code := c.code + if (min == 0 && max == -1) || (min == 1 && max == -1) || (min == 0 && max == 1) then 1 else 5;
    if possessive { code := code + 2 + 2 * LINK_SIZE; }
  }

  /** A group with a quantifier: it stands in the work space as an empty pair of
      brackets and is not replicated; its length is multiplied instead. A limited
      possessive quantifier puts atomic brackets around it. */
  method MeasureGroup(c: Cursor, length_prevgroup: nat, q: Quant, ghost g: Item) returns (c': Cursor)
    requires g.Bra? && g.ket.Once? && length_prevgroup == ItemSize(g) && q.Quant? && WFQuant(q)
    requires 0 <= c.previous && c.code == c.last_code == c.previous + 2 + 2 * LINK_SIZE
    ensures c'.length + c'.code - c'.last_code == c.length - length_prevgroup + BranchSize(CodeGroup(g, q))
    ensures c'.code >= c'.last_code == c.last_code && c'.previous == -1
  {
    hide ItemSize, Repeated, BranchSize, Wrapped;
    var min := q.min;
    var length, code, repeat_max, pending := c.length, c.code, q.max, false;
    RepeatedPlain(g, q);
    WrappedSize(Repeated(g, min, q.max, q.lazy, q.possessive && q.max == -1));
    GroupFormula(g, min, q.max, q.lazy, q.possessive && q.max == -1);
    if min == 0 {
      if repeat_max <= 1 {
        code := code + 1;
      } else {
        code := code + 2 + LINK_SIZE;
        pending := true;
      }
      repeat_max := repeat_max - 1;
    } else {
      if min > 1 { length := length + (min - 1) * length_prevgroup; }
      if repeat_max > 0 { repeat_max := repeat_max - min; }
    }
    if repeat_max >= 0 {
      if repeat_max > 0 {
        length := length + repeat_max * (length_prevgroup + 1 + 2 + 2 * LINK_SIZE) - 2 - 2 * LINK_SIZE;
      }
      if pending { code := code + 1 + LINK_SIZE; }
    }
    if q.possessive && q.max != -1 { code := code + 2 + 2 * LINK_SIZE; }
    c' := Cursor(length, code, c.last_code, -1);
  }

  lemma GroupFormula(g: Item, min: nat, max: int, lazy: bool, possessive: bool)
    requires g.Bra? && (max == -1 || (0 < max && min <= max))
    ensures var size := BranchSize(Repeated(g, min, max, lazy, possessive)); var one := ItemSize(g) + 1 + 2 + 2 * LINK_SIZE;
            && (min == 0 && max <= 1 ==> size == 1 + ItemSize(g))
            && (min == 0 && max > 1 ==> size == 1 + ItemSize(g) + 6 + (max - 1) * one - 6)
            && (min > 0 && max == -1 ==> size == (min - 1) * ItemSize(g) + ItemSize(g))
            && (min > 0 && max == min ==> size == (min - 1) * ItemSize(g) + ItemSize(g))
            && (min > 0 && max > min ==> size == (min - 1) * ItemSize(g) + ItemSize(g) + (max - min) * one - 6)
  {
    hide ItemSize, Nested, Copies, Looping, BranchSize;
    if min == 0 {
      ZeroSizes(g, max, lazy, possessive);
      if max > 1 { NestedFormula(g, max - 1, lazy); }
    } else if max == -1 {
      LoopingSize([], 0, g, lazy, possessive);
      CopiesFormula(g, min - 1, Cons(Looping(g, lazy, possessive), Nil));
    } else {
      CopiesFormula(g, min, Nested(g, max - min, lazy));
      Distribute(min, ItemSize(g));
      if max > min { NestedFormula(g, max - min, lazy); } else { NestedNone(g, lazy); }
    }
  }

  lemma NestedNone(g: Item, lazy: bool)
    ensures BranchSize(Nested(g, 0, lazy)) == 0
  {}

  /** One item with its quantifier. */
  method MeasurePiece(c0: Cursor, orig_code: nat, p: Piece, next: PBranch, ghost n: nat) returns (c: Cursor)
    requires WFPiece(p) && orig_code <= c0.code && c0.last_code <= c0.code && (c0.previous == -1 || orig_code <= c0.previous <= c0.code)
    ensures c.length + c.code - c.last_code == c0.length + c0.code - c0.last_code + BranchSize(CodePiece(p, next, n))
    ensures orig_code <= c.code && c.last_code <= c.code && (c.previous == -1 || orig_code <= c.previous <= c.code)
    decreases p, 1
  {
    hide BranchSize, CodeGroup, CodeSingle, CodeClass, CodeAlts, AltsSize, ShapedItem, AutoPossessive, Wrapped;
    c := Flush(c0, orig_code);
    match p
    case Place(op) =>
      OneAt([], 0, Zero(op));
      c := c.(code := c.code + 1, previous := -1);
    case Char(x, q) =>
      c := c.(code := c.code + SingleSize(x), previous := c.code);
      if q.None? {
        OneAt([], 0, One(x));
      } else {
        c := Flush(c, orig_code);
        var code;
        if x.Set? {
          code := MeasureClass(c, x, q.min, q.max, q.lazy, q.possessive);
        } else {
          code := MeasureSingle(c, x, q.min, q.max, q.lazy, q.possessive || (q.max < 0 && AutoPossessive(x, next)));
        }
        c := c.(code := code, previous := -1);
      }
    case Group(capturing, alts, q) =>
      ghost var n' := if capturing then n + 1 else n;
      ghost var g := Bra(if capturing then n + 1 else 0, CodeAlts(alts, n'), Once);
      GroupShape(p, next, n);
      var length_prevgroup := MeasureRegex(c.code, if capturing then 2 else 0, alts, n');
      c := Cursor(c.length + length_prevgroup - 2 - 2 * LINK_SIZE, c.code + 2 + 2 * LINK_SIZE, c.last_code, c.code);
      if q.None? {
        GroupOnce(p, next, n, g);
        OneAt([], 0, g);
      } else {
        c := Flush(c, orig_code);
        c := MeasureGroup(c, length_prevgroup, q, g);
      }
  }

  method MeasureBranch(start: nat, t: PBranch, ghost n: nat) returns (length: int)
    requires WFPBranch(t)
    ensures length == BranchSize(CodeBranch(t, n))
    decreases t, 0
  {
    hide BranchSize, CodePiece, WFPiece;
    var orig_code := start;
    var c := Cursor(0, start, start, -1);
    var rest := t;
    ghost var n': nat := n;
    NilThere([], 0);
    while rest.Then?
      invariant (rest == t || rest < t) && WFPBranch(rest)
      invariant orig_code <= c.code && c.last_code <= c.code && (c.previous == -1 || orig_code <= c.previous <= c.code)
      invariant c.length + c.code - c.last_code + BranchSize(CodeBranch(rest, n')) == BranchSize(CodeBranch(t, n))
      decreases rest
    {
      AppendAt([], 0, CodePiece(rest.hd, rest.tl, n'), CodeBranch(rest.tl, n' + Captures(rest.hd)));
      c := MeasurePiece(c, orig_code, rest.hd, rest.tl, n');
      n' := n' + Captures(rest.hd);
      rest := rest.tl;
    }
    c := Flush(c, orig_code);
    length := c.length + c.code - c.last_code;
  }

  /** A whole group, with its brackets. */
  method MeasureRegex(start: nat, skipbytes: nat, a: PAlts, ghost n: nat) returns (length: int)
    requires WFPAlts(a)
    ensures length == AltsSize(1 + LINK_SIZE + skipbytes, CodeAlts(a, n)) + 1 + LINK_SIZE
    decreases a, 1
  {
    hide AltsSize, BranchSize, CodeBranch, WFPBranch;
    length := 2 + 2 * LINK_SIZE + skipbytes;
    var rest := a;
    ghost var n': nat, h: nat := n, 1 + LINK_SIZE + skipbytes;
    AltsRoom(h, CodeAlts(a, n));
    while true
      invariant (rest == a || rest < a) && WFPAlts(rest) && h >= 3
      invariant length + AltsSize(h, CodeAlts(rest, n')) == AltsSize(1 + LINK_SIZE + skipbytes, CodeAlts(a, n)) + 1 + LINK_SIZE + h
      decreases rest
    {
      AltsRoom(h, CodeAlts(rest, n'));
      var branch := MeasureBranch(start + 1 + LINK_SIZE + skipbytes, rest.b, n');
      length := length + branch;
      if rest.Only? { return; }
      length := length + 1 + LINK_SIZE;
      n', h, rest := n' + BranchCaptures(rest.b), 1 + LINK_SIZE, rest.rest;
    }
  }
}
