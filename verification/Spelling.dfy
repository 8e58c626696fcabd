/** Where the text that check_auto_possessive() looks at does not show that the
    next item may be left out, as in a+b{00,1}a: the repeat is made possessive
    all the same, and matches are lost. */
module Spelling {
  import opened Opcodes
  import opened Tree
  import opened Language
  import opened Pattern
  import opened AutoPossess
  import opened Translate

  /** x{min,} y{00,max} z */
  function Unseen(x: Single, min: nat, lazy: bool, y: Single, q: Quant, z: Single): PBranch {
    Then(Char(x, Quant(min, -1, lazy, false, false)), Then(Char(y, q), Then(Char(z, None), End)))
  }

  predicate WFUnseen(x: Single, y: Single, q: Quant, z: Single) {
    && WFSingle(x) && WFSingle(y) && WFSingle(z) && !x.Set? && !y.Set?
    && q.Quant? && WFQuant(q) && q.min == 0 && !q.seen && !q.possessive && Table(ClassOf(x), ClassOf(y))
  }

  lemma UnseenWF(x: Single, min: nat, lazy: bool, y: Single, q: Quant, z: Single)
    requires WFUnseen(x, y, q, z)
    ensures var b := Unseen(x, min, lazy, y, q, z); WFPBranch(b) && WFPBranch(b.tl) && WFPBranch(b.tl.tl)
  {
    var b := Unseen(x, min, lazy, y, q, z);
    assert WFPiece(b.tl.tl.hd) && WFPBranch(b.tl.tl.tl);
    assert WFPBranch(b.tl.tl);
    assert WFPiece(b.tl.hd) && WFPiece(b.hd);
    assert WFPBranch(b.tl);
  }

  /** Its code. */
  function Emitted(x: Single, min: nat, lazy: bool, y: Single, q: Quant, z: Single): Branch
    requires WFUnseen(x, y, q, z)
  {
    UnseenWF(x, min, lazy, y, q, z);
    CodeBranch(Unseen(x, min, lazy, y, q, z), 0)
  }

  lemma UnseenCovered(x: Single, min: nat, lazy: bool, y: Single, q: Quant, z: Single)
    requires WFUnseen(x, y, q, z)
    ensures var b := Unseen(x, min, lazy, y, q, z);
            && WFPBranch(b) && CoveredBranch(b) && !SpelledBranch(b)
            && WFPBranch(b.tl) && CoveredBranch(b.tl) && SpelledBranch(b.tl) && WFPiece(b.hd) && CoveredPiece(b.hd)
            && Possessify(x, b.hd.q, b.tl)
  {
    var b := Unseen(x, min, lazy, y, q, z);
    UnseenWF(x, min, lazy, y, q, z);
    var last := b.tl.tl;
    assert SpelledBranch(last.tl) && CoveredBranch(last.tl);
    assert SpelledPiece(last.hd, last.tl) && CoveredPiece(last.hd);
    assert SpelledBranch(last) && CoveredBranch(last);
    assert SpelledPiece(b.tl.hd, last) && CoveredPiece(b.tl.hd);
    assert LeftOut(b.tl);
    assert !SpelledPiece(b.hd, b.tl);
  }

  /** The code takes all that x matches. */
  lemma UnseenCode(x: Single, min: nat, lazy: bool, y: Single, q: Quant, z: Single, s: seq<byte>, i: nat, j: nat)
    requires WFUnseen(x, y, q, z)
    ensures var b := Unseen(x, min, lazy, y, q, z);
            BranchL(Emitted(x, min, lazy, y, q, z), s, i, j) <==>
            exists m: nat :: PieceL(b.hd, s, i, m) && Full(x, -1, s, i, m) && PBranchL(b.tl, s, m, j)
  {
    hide BranchL, PieceL, PBranchL, CodePiece, WFPiece, CoveredPiece, SpelledBranch, Possessify, Full;
    var b := Unseen(x, min, lazy, y, q, z);
    UnseenCovered(x, min, lazy, y, q, z);
    var piece, rest := CodePiece(b.hd, b.tl, 0), CodeBranch(b.tl, 0);
    AppendL(piece, rest, s, i, j);
    assert Emitted(x, min, lazy, y, q, z) == Append(piece, rest);
    if m: nat :| BranchL(piece, s, i, m) && BranchL(rest, s, m, j) {
      CharMatches(b.hd, b.tl, 0, s, i, m);
      BranchAgree(b.tl, 0, s, m, j, false);
      assert PieceL(b.hd, s, i, m) && Full(x, -1, s, i, m) && PBranchL(b.tl, s, m, j);
    }
    if m: nat :| PieceL(b.hd, s, i, m) && Full(x, -1, s, i, m) && PBranchL(b.tl, s, m, j) {
      CharMatches(b.hd, b.tl, 0, s, i, m);
      BranchAgree(b.tl, 0, s, m, j, false);
      assert BranchL(piece, s, i, m) && BranchL(rest, s, m, j);
    }
  }

  /** What follows x begins with a byte of y or of z. */
  lemma AfterX(y: Single, q: Quant, z: Single, s: seq<byte>, m: nat, j: nat)
    requires WFSingle(y) && WFSingle(z) && WFPiece(Char(y, q)) && PBranchL(Then(Char(y, q), Then(Char(z, None), End)), s, m, j)
    ensures m < |s| && (Hit(y, s[m]) || Hit(z, s[m]))
  {
    hide PieceL;
    var b := Then(Char(y, q), Then(Char(z, None), End));
    var u := PUncons(b, s, m, j);
    var v := PUncons(b.tl, s, u, j);
    CharL(b.hd, s, m, u);
    CharL(b.tl.hd, s, u, v);
  }

  /** A byte of both x and z, often enough for a match in which x leaves one. */
  function Often(c: byte, min: nat): seq<byte> { seq(min + 1, _ => c) }

  lemma Lost(x: Single, min: nat, lazy: bool, y: Single, q: Quant, z: Single, c: byte)
    requires WFUnseen(x, y, q, z) && Hit(x, c) && Hit(z, c)
    ensures PBranchL(Unseen(x, min, lazy, y, q, z), Often(c, min), 0, min + 1)
    ensures forall i: nat, j: nat :: !BranchL(Emitted(x, min, lazy, y, q, z), Often(c, min), i, j)
  {
    hide PieceL, BranchL, Emitted, Possessify;
    var b, s := Unseen(x, min, lazy, y, q, z), Often(c, min);
    UnseenCovered(x, min, lazy, y, q, z);
    CharL(b.hd, s, 0, min);
    CharL(b.tl.hd, s, min, min);
    CharL(b.tl.tl.hd, s, min, min + 1);
    assert PBranchL(End, s, min + 1, min + 1);
    assert PBranchL(b.tl.tl, s, min, min + 1);
    assert PBranchL(b.tl, s, min, min + 1);
    forall i: nat, j: nat ensures !BranchL(Emitted(x, min, lazy, y, q, z), s, i, j) {
      UnseenCode(x, min, lazy, y, q, z, s, i, j);
      if m: nat :| PieceL(b.hd, s, i, m) && Full(x, -1, s, i, m) && PBranchL(b.tl, s, m, j) {
        AfterX(y, q, z, s, m, j);
        PieceRange(b.hd, s, i, m);
      }
    }
  }

  /** Of such a branch the code matches what is written if and only if x and z
      have no byte in common. */
  lemma SpellingExact(x: Single, min: nat, lazy: bool, y: Single, q: Quant, z: Single)
    requires WFUnseen(x, y, q, z)
    ensures var b := Unseen(x, min, lazy, y, q, z);
            (forall s: seq<byte>, i: nat, j: nat :: BranchL(Emitted(x, min, lazy, y, q, z), s, i, j) <==> PBranchL(b, s, i, j)) <==> Disjoint(x, z)
  {
    hide BranchL, PBranchL, CodeBranch, PieceL, Possessify;
    var b := Unseen(x, min, lazy, y, q, z);
    UnseenCovered(x, min, lazy, y, q, z);
    if Disjoint(x, z) {
      forall s: seq<byte>, i: nat, j: nat ensures BranchL(Emitted(x, min, lazy, y, q, z), s, i, j) <==> PBranchL(b, s, i, j) {
        UnseenCode(x, min, lazy, y, q, z, s, i, j);
        BranchAgree(b, 0, s, i, j, true);
        if PBranchL(b, s, i, j) {
          var m := PUncons(b, s, i, j);
          AfterX(y, q, z, s, m, j);
          AutoDisjoint(x, y);
        }
      }
    } else {
      var c: byte :| Hit(x, c) && Hit(z, c);
      Lost(x, min, lazy, y, q, z, c);
    }
  }
}
