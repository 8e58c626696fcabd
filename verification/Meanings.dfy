/** What the single items of a pattern mean, said without the opcodes' predicates
    that the compiler and the matchers share: which bytes a character or type
    takes, and what must stand before and behind an anchor. */
module Meanings {
  import opened Opcodes
  import opened Tree
  import opened Pattern

  // ---- One byte ----

  /** The bytes that a literal, a type or a class takes, by number. */
  predicate Takes(x: Single, b: byte) {
    match x
    case Chr(c) => b == c
    case Set(bits) => |bits| == 32 && (bits[b / 8] / [1, 2, 4, 8, 16, 32, 64, 128][b % 8]) % 2 == 1
    case Type(op) =>
      if op == 7 then 48 <= b <= 57
      else if op == 6 then b < 48 || 57 < b
      else if op == 9 then b == 9 || b == 10 || b == 12 || b == 13 || b == 32
      else if op == 8 then b < 9 || b == 11 || 13 < b < 32 || 32 < b
      else if op == 11 then 48 <= b <= 57 || 65 <= b <= 90 || b == 95 || 97 <= b <= 122
      else if op == 10 then b < 48 || 57 < b < 65 || 90 < b < 95 || b == 96 || 122 < b
      else if op == 12 then b != 10
      else op == 13
  }

  lemma PowersOfTwo(k: nat)
    requires k < 8
    ensures Pow2(k) == [1, 2, 4, 8, 16, 32, 64, 128][k]
  {
    assert Pow2(0) == 1 && Pow2(1) == 2 && Pow2(2) == 4 && Pow2(3) == 8;
    assert Pow2(4) == 16 && Pow2(5) == 32 && Pow2(6) == 64 && Pow2(7) == 128;
  }

  lemma TakesHit(x: Single, b: byte)
    requires WFSingle(x)
    ensures Takes(x, b) <==> Hit(x, b)
  {
    PowersOfTwo(b % 8);
  }

  /** An item without quantifier takes one byte, of those it stands for. */
  lemma CharMeans(x: Single, next: PBranch, s: seq<byte>, i: nat, j: nat)
    requires WFSingle(x)
    ensures PBranchL(Then(Char(x, None), next), s, i, j) <==> i < |s| && Takes(x, s[i]) && PBranchL(next, s, i + 1, j)
  {
    hide PBranchL, PieceL, Takes, Hit;
    var b := Then(Char(x, None), next);
    if PBranchL(b, s, i, j) {
      var m := PUncons(b, s, i, j);
      OneTaken(x, s, i, m);
    }
    if i < |s| && Takes(x, s[i]) && PBranchL(next, s, i + 1, j) {
      OneTaken(x, s, i, i + 1);
      PBranchRange(next, s, i + 1, j);
      PCons(b, s, i, i + 1, j);
    }
  }

  lemma OneTaken(x: Single, s: seq<byte>, i: nat, j: nat)
    requires WFSingle(x)
    ensures PieceL(Char(x, None), s, i, j) <==> j == i + 1 && i < |s| && Takes(x, s[i])
  {
    hide Takes, Hit;
    var p := Char(x, None);
    if i < |s| { TakesHit(x, s[i]); }
    if PieceL(p, s, i, j) {
      var n: nat :| Times(p.q, n) && OftenL(p, s, n, i, j) && Taken(p, s, n, j);
      var m := OftenSplit(p, s, n, i, j);
    }
    if j == i + 1 && i < |s| && Takes(x, s[i]) {
      assert OnceL(p, s, i, j) && OftenL(p, s, 1 - 1, j, j);
      assert OftenL(p, s, 1, i, j);
      assert Times(p.q, 1) && Taken(p, s, 1, j);
    }
  }

  lemma PCons(b: PBranch, s: seq<byte>, i: nat, m: nat, j: nat)
    requires b.Then? && i <= m <= j && PieceL(b.hd, s, i, m) && PBranchL(b.tl, s, m, j)
    ensures PBranchL(b, s, i, j)
  {
    hide PieceL;
  }

  // ---- Anchors ----

  /** What an anchor wants before and behind it: \A and ^ nothing before; ^ of
      multiline mode nothing or a newline before, but not that behind which the
      subject ends; \z nothing behind; \Z and $ nothing or a last newline behind;
      $ of multiline mode nothing or a newline. */
  predicate Stands(op: int, before: seq<byte>, behind: seq<byte>) {
    if op == OP_SOD || op == OP_CIRC then before == []
    else if op == OP_CIRCM then before == [] || (before[|before| - 1] == 10 && behind != [])
    else if op == OP_EOD then behind == []
    else if op == OP_EODN || op == OP_DOLL then behind == [] || behind == [10]
    else op == OP_DOLLM && (behind == [] || behind[0] == 10)
  }

  /** The test that both matchers make is this one. */
  lemma ZeroStands(op: int, s: seq<byte>, i: nat)
    requires IsZeroOp(op) && i <= |s|
    ensures ZeroHolds(op, s, i) <==> Stands(op, s[..i], s[i..])
  {
    assert s[i..] == [10] <==> i == |s| - 1 && s[i] == 10;
  }

  lemma PlaceMeans(op: int, s: seq<byte>, i: nat, j: nat)
    requires IsZeroOp(op)
    ensures PieceL(Place(op), s, i, j) <==> i == j <= |s| && Stands(op, s[..i], s[i..])
  {
    if i <= |s| { ZeroStands(op, s, i); }
  }

  /** An anchor in front of a branch. */
  lemma AnchorFirst(op: int, next: PBranch, s: seq<byte>, i: nat, j: nat)
    requires IsZeroOp(op)
    ensures PBranchL(Then(Place(op), next), s, i, j) <==> i <= |s| && Stands(op, s[..i], s[i..]) && PBranchL(next, s, i, j)
  {
    hide PBranchL, PieceL, Stands;
    var b := Then(Place(op), next);
    PlaceMeans(op, s, i, i);
    if PBranchL(b, s, i, j) {
      var m := PUncons(b, s, i, j);
      PlaceMeans(op, s, i, m);
    }
    if i <= |s| && Stands(op, s[..i], s[i..]) && PBranchL(next, s, i, j) {
      PBranchRange(next, s, i, j);
      PCons(b, s, i, i, j);
    }
  }

  /** The branch with one more item at its end. */
  function Behind(b: PBranch, p: Piece): PBranch {
    if b.End? then Then(p, End) else Then(b.hd, Behind(b.tl, p))
  }

  lemma JustOne(p: Piece, s: seq<byte>, i: nat, j: nat)
    ensures PBranchL(Then(p, End), s, i, j) <==> PieceL(p, s, i, j)
  {
    hide PieceL;
    if PBranchL(Then(p, End), s, i, j) { var m := PUncons(Then(p, End), s, i, j); }
    if PieceL(p, s, i, j) {
      PieceRange(p, s, i, j);
      PCons(Then(p, End), s, i, j, j);
    }
  }

  /** An anchor at the end of a branch. */
  lemma {:induction false} AnchorLast(b: PBranch, op: int, s: seq<byte>, i: nat, j: nat)
    requires IsZeroOp(op)
    ensures PBranchL(Behind(b, Place(op)), s, i, j) <==> PBranchL(b, s, i, j) && j <= |s| && Stands(op, s[..j], s[j..])
    decreases b
  {
    hide PieceL, Stands;
    var c := Behind(b, Place(op));
    if b.End? {
      JustOne(Place(op), s, i, j);
      PlaceMeans(op, s, i, j);
    } else {
      hide PBranchL;
      if PBranchL(c, s, i, j) {
        var m := PUncons(c, s, i, j);
        AnchorLast(b.tl, op, s, m, j);
        PCons(b, s, i, m, j);
      }
      if PBranchL(b, s, i, j) && j <= |s| && Stands(op, s[..j], s[j..]) {
        var m := PUncons(b, s, i, j);
        AnchorLast(b.tl, op, s, m, j);
        PCons(c, s, i, m, j);
      }
    }
  }
}
