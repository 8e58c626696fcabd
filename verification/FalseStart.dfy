/** What goes wrong where unlimited groups that may match nothing are nested:
    (?:y|(?:x|)*)* on the subject "xy" stops after the x, although going on to
    the y is preferred. The ket of the inner group puts its new start on the
    chain twice and takes it off once; the outer ket finds the other and takes
    its own round for an empty one. */
module FalseStart {
  import opened Opcodes
  import opened Tree
  import opened Kont
  import opened Pattern
  import opened Translate
  import opened Order
  import opened Backtrack
  import opened Prefer
  import opened Nesting

  const LETTER_X: byte := 120
  const LETTER_Y: byte := 121
  const XY: seq<byte> := [LETTER_X, LETTER_Y]

  function Any(alts: PAlts): PAlts { Only(Then(Group(false, alts, Quant(0, -1, false, false, true)), End)) }
  function OneChar(c: byte, rest: PAlts): PAlts { Or(Then(Char(Chr(c), None), End), rest) }

  const INNER: PAlts := OneChar(LETTER_X, Only(End))
  const OUTER: PAlts := OneChar(LETTER_Y, Any(INNER))

  const INNER_CODE: Alts := More(Cons(One(Chr(LETTER_X)), Nil), Last(Nil))
  const INNER_LOOP: Item := Bra(0, INNER_CODE, Again(false, true))
  const OUTER_CODE: Alts := More(Cons(One(Chr(LETTER_Y)), Nil), Last(Cons(BraZero(false, INNER_LOOP), Nil)))
  const OUTER_LOOP: Item := Bra(0, OUTER_CODE, Again(false, true))
  const CODE: Alts := Last(Cons(BraZero(false, OUTER_LOOP), Nil))

  function Star(alts: PAlts): Piece { Group(false, alts, Quant(0, -1, false, false, true)) }

  lemma AnyWF(alts: PAlts)
    requires WFPAlts(alts)
    ensures WFPiece(Star(alts)) && WFPBranch(Then(Star(alts), End)) && WFPAlts(Any(alts))
  {
    hide WFPAlts;
    assert WFPiece(Star(alts));
    StarWF(Star(alts));
  }

  lemma StarWF(it: Piece)
    requires WFPiece(it)
    ensures WFPBranch(Then(it, End)) && WFPAlts(Only(Then(it, End)))
  {
    hide WFPiece;
    assert WFPBranch(Then(it, End));
  }

  lemma LoopCode(g: Item)
    requires g.Bra? && NullAlts(g.alts)
    ensures CodeGroup(g, Quant(0, -1, false, false, true)) == Cons(BraZero(false, Bra(g.cap, g.alts, Again(false, true))), Nil)
  {
    hide NullAlts;
  }

  lemma StarCode(alts: PAlts, n: nat)
    requires WFPAlts(alts) && WFPiece(Star(alts))
    ensures CodePiece(Star(alts), End, n) == CodeGroup(Bra(0, CodeAlts(alts, n), Once), Quant(0, -1, false, false, true))
  {
    hide CodeAlts, CodeGroup, WFPAlts;
  }

  lemma OnlyAlts(b: PBranch, n: nat)
    requires WFPBranch(b) && WFPAlts(Only(b))
    ensures CodeAlts(Only(b), n) == Last(CodeBranch(b, n))
  {
    hide CodeBranch, WFPBranch;
  }

  lemma OnlyPiece(it: Piece, x: Item, n: nat)
    requires WFPiece(it) && WFPBranch(Then(it, End)) && CodePiece(it, End, n) == Cons(x, Nil)
    ensures CodeBranch(Then(it, End), n) == Cons(x, Nil)
  {
    hide CodePiece, WFPiece;
    assert CodeBranch(End, n + Captures(it)) == Nil;
    assert Append(Cons(x, Nil), Nil) == Cons(x, Nil);
  }

  lemma AnyCode(alts: PAlts, n: nat)
    requires WFPAlts(alts) && NullAlts(CodeAlts(alts, n))
    ensures WFPAlts(Any(alts)) && CodeAlts(Any(alts), n) == Last(Cons(BraZero(false, Bra(0, CodeAlts(alts, n), Again(false, true))), Nil))
  {
    hide NullAlts, WFPAlts, WFPiece, CodeAlts, CodePiece, CodeGroup;
    AnyWF(alts);
    StarCode(alts, n);
    LoopCode(Bra(0, CodeAlts(alts, n), Once));
    OnlyPiece(Star(alts), BraZero(false, Bra(0, CodeAlts(alts, n), Again(false, true))), n);
    OnlyAlts(Then(Star(alts), End), n);
  }

  lemma Compiled()
    ensures WFPAlts(INNER) && WFPAlts(OUTER) && WFPAlts(Any(OUTER)) && CodeAlts(Any(OUTER), 0) == CODE
  {
    assert CodeAlts(Only(End), 0) == Last(Nil);
    assert CodeAlts(INNER, 0) == INNER_CODE;
    AnyCode(INNER, 0);
    assert CodeAlts(OUTER, 0) == OUTER_CODE;
    AnyCode(OUTER, 0);
  }

  /** Nothing but the nesting keeps this pattern from being matched as preferred. */
  lemma OnlyNested()
    ensures CoveredAlts(Any(OUTER)) && SpelledAlts(Any(OUTER)) && !ApartPAlts(Any(OUTER))
  {
    assert AltsNull(INNER);
    assert CoveredAlts(INNER) && SpelledAlts(INNER);
    assert CoveredAlts(Any(INNER)) && SpelledAlts(Any(INNER));
    assert CoveredAlts(OUTER) && SpelledAlts(OUTER);
  }

  function Start(i: nat, c: Chain): At { At(Pos(i, map[]), c) }

  /** Where the character is not, there is nothing to try; else one step. */
  lemma CharTries(c: byte, k: Kont, i: nat, ch: Chain)
    requires i < 2
    ensures Tries(Cons(One(Chr(c)), Nil), k, XY, Start(i, ch)) == if XY[i] == c then Tries(Nil, k, XY, Start(i + 1, ch)) else []
  {
    hide Tries;
    TriesSingle(One(Chr(c)), Nil, k, XY, Start(i, ch));
    BindOne(Pos(i + 1, map[]), Resume(Nil, k, XY, ch));
    assert HitAt(Chr(c), XY, i) <==> XY[i] == c;
    assert RepO(Chr(c), 0, 0, false, XY, Pos(i + 1, map[])) == [Pos(i + 1, map[])];
    assert ItemO(One(Chr(c)), XY, Pos(i, map[])) == if XY[i] == c then [Pos(i + 1, map[])] else [];
  }

  /** Into a loop at `i`: its first branch, and then the second. */
  lemma LoopTries(loop: Item, k: Kont, i: nat, c: Chain, a: Branch, b: Branch)
    requires loop == Bra(0, More(a, Last(b)), Again(false, true))
    ensures var k' := In(loop, 0, i, true, Nil, k);
            Tries(Cons(loop, Nil), k, XY, Start(i, c)) == Tries(a, k', XY, Start(i, Link(i, c))) + Tries(b, k', XY, Start(i, Link(i, c)))
  {
    hide Tries;
    var k' := In(loop, 0, i, true, Nil, k);
    TriesEnter(Cons(loop, Nil), k, 0, true, XY, Start(i, c));
    AltsTriesSplit(loop.alts, k', XY, Start(i, Link(i, c)));
    AltsTriesSplit(Last(b), k', XY, Start(i, Link(i, c)));
  }

  /** The inner loop re-entered at 1 consumes nothing; so the outer ket is
      reached with a start at 1 on the chain. */
  lemma Misled(kO: Kont, c: Chain)
    requires kO == In(OUTER_LOOP, 0, 0, true, Nil, Stop)
    ensures Tries(Cons(INNER_LOOP, Nil), kO, XY, Start(1, Link(1, c))) == Tries(Nil, kO, XY, Start(1, Link(1, c)))
    ensures c.Link? ==> Tries(Nil, kO, XY, Start(1, Link(1, c))) == [Start(1, c)]
  {
    hide Tries;
    var kI := In(INNER_LOOP, 0, 1, true, Nil, kO);
    LoopTries(INNER_LOOP, kO, 1, Link(1, c), INNER_CODE.b, Nil);
    CharTries(LETTER_X, kI, 1, Link(1, Link(1, c)));
    TriesKet(kI, XY, 1, map[], Link(1, Link(1, c)));
    TriesKet(kO, XY, 1, map[], Link(1, c));
    TriesNil(Stop, XY, Start(1, c));
  }

  lemma StopsEarly()
    ensures var ms := AltsM(CODE, XY, Start(0, Empty)); ms != [] && ms[0].p.i == 1
  {
    hide Tries, BranchM;
    var kO := In(OUTER_LOOP, 0, 0, true, Nil, Stop);
    var c := Link(0, Empty);
    var kI := In(INNER_LOOP, 0, 0, true, Nil, kO);
    TriesBind(CODE.b, Stop, XY, Start(0, Empty));
    BindUnit(BranchM(CODE.b, XY, Start(0, Empty)), Closing(Stop, XY));
    TriesBraZero(CODE.b.hd, Nil, Stop, XY, Start(0, Empty));
    LoopTries(OUTER_LOOP, Stop, 0, Empty, OUTER_CODE.b, OUTER_CODE.rest.b);
    CharTries(LETTER_Y, kO, 0, c);
    TriesBraZero(OUTER_CODE.rest.b.hd, Nil, kO, XY, Start(0, c));
    LoopTries(INNER_LOOP, kO, 0, c, INNER_CODE.b, Nil);
    CharTries(LETTER_X, kI, 0, Link(0, c));
    TriesKet(kI, XY, 1, map[], Link(0, c));
    Misled(kO, c);
  }

  // ---- What is preferred ----

  function Here(i: nat): Pos { Pos(i, map[]) }

  lemma BindHead(ms: seq<Pos>, f: Pos -> seq<Pos>)
    requires ms != [] && f(ms[0]) != []
    ensures Bind(ms, f) != [] && Bind(ms, f)[0] == f(ms[0])[0]
  {}

  lemma CharOrder(c: byte, i: nat)
    ensures BranchO(Cons(One(Chr(c)), Nil), XY, Here(i)) == if i < 2 && XY[i] == c then [Here(i + 1)] else []
  {
    OneOrder(One(Chr(c)), XY, Here(i));
    assert RepO(Chr(c), 0, 0, false, XY, Here(i + 1)) == [Here(i + 1)];
  }

  /** A round of a loop whose first branch is one character. */
  lemma LoopOrder(loop: Item, c: byte, i: nat, b: Branch)
    requires loop == Bra(0, More(Cons(One(Chr(c)), Nil), Last(b)), Again(false, true)) && i <= 2
    requires BranchO(b, XY, Here(i)) != []
    ensures var first := if i < 2 && XY[i] == c then Here(i + 1) else BranchO(b, XY, Here(i))[0];
            var es := ItemO(loop, XY, Here(i));
            es != [] && es[0] == After(loop, i, XY)(first)[0]
    ensures forall p :: After(loop, i, XY)(p) != []
  {
    hide BranchO, ItemO;
    CharOrder(c, i);
    BraO(loop, XY, Here(i));
    BindHead(AltsO(loop.alts, XY, Here(i)), After(loop, i, XY));
  }

  /** The inner loop takes the x, and nothing else. */
  lemma InnerOrder(i: nat)
    requires i <= 2
    ensures var es := ItemO(INNER_LOOP, XY, Here(i)); es != [] && es[0] == Here(if i == 0 then 1 else i)
    decreases 2 - i
  {
    hide ItemO, BranchO;
    NilOrder(XY, Here(i));
    LoopOrder(INNER_LOOP, LETTER_X, i, Nil);
    if i == 0 { InnerOrder(1); }
  }

  lemma OuterOrder(i: nat)
    requires i <= 2
    ensures var es := ItemO(OUTER_LOOP, XY, Here(i)); es != [] && es[0] == Here(2)
    decreases 2 - i
  {
    hide ItemO, BranchO;
    InnerOrder(i);
    ZeroOrMore(false, INNER_LOOP, XY, Here(i));
    LoopOrder(OUTER_LOOP, LETTER_Y, i, OUTER_CODE.rest.b);
    if i < 2 { OuterOrder(i + 1); }
  }

  /** The first match tried ends after the x; the preferred one ends after the y. */
  lemma NestedLoopsDiffer()
    ensures WFPAlts(Any(OUTER)) && CoveredAlts(Any(OUTER)) && SpelledAlts(Any(OUTER)) && !ApartPAlts(Any(OUTER))
    ensures var tried := AltsM(CodeAlts(Any(OUTER), 0), XY, At(Pos(0, map[]), Empty)); tried != [] && tried[0].p.i == 1
    ensures var best := PAltsO(Any(OUTER), 0, XY, Pos(0, map[])); best != [] && best[0].i == 2
  {
    hide AltsM, AltsO, PAltsO, CodeAlts, ItemO;
    Compiled();
    OnlyNested();
    StopsEarly();
    AltsSame(Any(OUTER), 0, XY, Here(0));
    OuterOrder(0);
    CodeOrder();
  }

  lemma CodeOrder()
    ensures AltsO(CODE, XY, Here(0)) == ItemO(OUTER_LOOP, XY, Here(0)) + [Here(0)]
  {
    hide ItemO, BranchO;
    ZeroOrMore(false, OUTER_LOOP, XY, Here(0));
  }
}
