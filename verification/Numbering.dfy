/** The numbers that `Parens` says compiling assigns are those that the compiler
    of `Compile` does assign: its count of brackets, and the groups of the code
    it emits. For text without groups that reset the count. */
module Numbering {
  import opened Pattern
  import opened Translate
  import opened PatternGroups
  import Parens
  import Spans

  /** The parentheses of a pattern. */
  function ElemOf(p: Piece): Parens.Elem
    decreases p
  {
    match p
    case Group(capturing, alts, _) => Parens.Paren(if capturing then Parens.Capture else Parens.Group, BranchesOf(alts))
    case _ => Parens.Plain
  }

  function ElemsOf(b: PBranch): Parens.Elems
    decreases b
  {
    match b
    case End => Parens.Done
    case Then(hd, tl) => Parens.Then(ElemOf(hd), ElemsOf(tl))
  }

  function BranchesOf(a: PAlts): Parens.Branches
    decreases a
  {
    match a
    case Only(b) => Parens.Only(ElemsOf(b))
    case Or(b, rest) => Parens.Or(ElemsOf(b), BranchesOf(rest))
  }

  lemma {:induction false} ElemCount(p: Piece, n: nat)
    ensures Parens.ElemEnd(ElemOf(p), n) == n + Captures(p)
    decreases p, 1
  {
    if p.Group? {
      var n' := if p.capturing then n + 1 else n;
      CountSame(p.alts, n', n', n');
    }
  }

  lemma {:induction false} ElemsCount(b: PBranch, n: nat)
    ensures Parens.ElemsEnd(ElemsOf(b), n) == n + BranchCaptures(b)
    decreases b, 0
  {
    if b.Then? {
      ElemCount(b.hd, n);
      ElemsCount(b.tl, n + Captures(b.hd));
    }
  }

  /** Behind a group the count has grown by the groups in it. */
  lemma {:induction false} CountSame(a: PAlts, n: nat, orig: nat, max: nat)
    requires max <= n
    ensures Parens.BranchesEnd(BranchesOf(a), n, orig, false, max) == n + AltsCaptures(a)
    decreases a, 0
  {
    ElemsCount(a.b, n);
    if a.Or? { CountSame(a.rest, n + BranchCaptures(a.b), orig, n + BranchCaptures(a.b)); }
  }

  /** One number after the other, from `n` + 1 on. */
  predicate InTurn(gs: seq<Parens.Numbered>, n: nat) {
    forall k :: 0 <= k < |gs| ==> gs[k] == Parens.Numbered(n + 1 + k, false, "")
  }

  lemma TurnJoin(a: seq<Parens.Numbered>, b: seq<Parens.Numbered>, n: nat)
    requires InTurn(a, n) && InTurn(b, n + |a|)
    ensures InTurn(a + b, n)
  {
    forall k | 0 <= k < |a + b| ensures (a + b)[k] == Parens.Numbered(n + 1 + k, false, "") {
      if k >= |a| { assert (a + b)[k] == b[k - |a|]; }
    }
  }

  lemma {:induction false} ElemInTurn(p: Piece, n: nat)
    ensures var gs := Parens.ElemNumbers(ElemOf(p), n); InTurn(gs, n) && |gs| == Captures(p)
    decreases p, 1
  {
    if p.Group? {
      var n' := if p.capturing then n + 1 else n;
      NumbersInTurn(p.alts, n', n');
      TurnJoin(Parens.Own(ElemOf(p).k, n), Parens.BranchesNumbers(BranchesOf(p.alts), n', n', false), n);
    }
  }

  lemma {:induction false} ElemsInTurn(b: PBranch, n: nat)
    ensures var gs := Parens.ElemsNumbers(ElemsOf(b), n); InTurn(gs, n) && |gs| == BranchCaptures(b)
    decreases b, 0
  {
    if b.Then? {
      ElemInTurn(b.hd, n);
      ElemCount(b.hd, n);
      ElemsInTurn(b.tl, n + Captures(b.hd));
      TurnJoin(Parens.ElemNumbers(ElemOf(b.hd), n), Parens.ElemsNumbers(ElemsOf(b.tl), n + Captures(b.hd)), n);
    }
  }

  /** The groups get the numbers from `n` + 1 on, in the order of the text. */
  lemma {:induction false} NumbersInTurn(a: PAlts, n: nat, orig: nat)
    ensures var gs := Parens.BranchesNumbers(BranchesOf(a), n, orig, false); InTurn(gs, n) && |gs| == AltsCaptures(a)
    decreases a, 0
  {
    ElemsInTurn(a.b, n);
    if a.Or? {
      ElemsCount(a.b, n);
      NumbersInTurn(a.rest, n + BranchCaptures(a.b), orig);
      TurnJoin(Parens.ElemsNumbers(ElemsOf(a.b), n),
               Parens.BranchesNumbers(BranchesOf(a.rest), n + BranchCaptures(a.b), orig, false), n);
    }
  }

  lemma {:induction false} PieceGroupThere(p: Piece, n: nat, g: nat)
    requires n < g <= n + Captures(p)
    ensures PieceGroup(p, n, g).Is?
    decreases p, 1
  {
    if p.Group? && !(p.capturing && g == n + 1) { GroupThere(p.alts, if p.capturing then n + 1 else n, g); }
  }

  lemma {:induction false} BranchGroupThere(b: PBranch, n: nat, g: nat)
    requires n < g <= n + BranchCaptures(b)
    ensures BranchGroup(b, n, g).Is?
    decreases b, 0
  {
    hide PieceGroup;
    if g <= n + Captures(b.hd) { PieceGroupThere(b.hd, n, g); } else { BranchGroupThere(b.tl, n + Captures(b.hd), g); }
  }

  /** And each of these numbers is that of a group of the pattern. */
  lemma {:induction false} GroupThere(a: PAlts, n: nat, g: nat)
    requires n < g <= n + AltsCaptures(a)
    ensures AltsGroup(a, n, g).Is?
    decreases a, 0
  {
    hide BranchGroup;
    if g <= n + BranchCaptures(a.b) { BranchGroupThere(a.b, n, g); } else { GroupThere(a.rest, n + BranchCaptures(a.b), g); }
  }

  /** The two numberings are one: the count that compile_regex() ends with, and
      a number for every group that `AltsGroup` has, which is the number that
      its bracket has in the code. */
  lemma NumberingsAgree(a: PAlts)
    requires WFPAlts(a)
    ensures Parens.BranchesEnd(BranchesOf(a), 0, 0, false, 0) == AltsCaptures(a)
    ensures var gs := Parens.BranchesNumbers(BranchesOf(a), 0, 0, false);
            |gs| == AltsCaptures(a) && forall k :: 0 <= k < |gs| ==> gs[k].number == k + 1 && AltsGroup(a, 0, k + 1).Is?
    ensures forall g :: g in Spans.AltsGroups(CodeAlts(a, 0)) ==> 1 <= g.0 <= AltsCaptures(a) && Compiled(AltsGroup(a, 0, g.0), 0, AltsCaptures(a), g)
  {
    hide AltsGroup, CodeAlts, AltsCaptures, Spans.AltsGroups;
    CountSame(a, 0, 0, 0);
    NumbersInTurn(a, 0, 0);
    var gs := Parens.BranchesNumbers(BranchesOf(a), 0, 0, false);
    forall k | 0 <= k < |gs| ensures gs[k].number == k + 1 && AltsGroup(a, 0, k + 1).Is? { GroupThere(a, 0, k + 1); }
    forall g | g in Spans.AltsGroups(CodeAlts(a, 0)) ensures 1 <= g.0 <= AltsCaptures(a) && Compiled(AltsGroup(a, 0, g.0), 0, AltsCaptures(a), g) {
      AltsNumbers(a, 0, g);
    }
  }
}
