/** A failed call of match() may leave a later stretch in the slots of a group
    that is still open: (a)+b on "aac". The second round of the group closes it
    with the second a; what follows fails, and the pair is not put back until
    the bracket itself fails. */
module Leftover {
  import opened Opcodes
  import opened Tree
  import opened Kont
  import opened Spans
  import opened Order
  import opened Backtrack
  import opened Exec

  const A: byte := 97
  const B: byte := 98
  const AAC: seq<byte> := [A, A, 99]

  const BODY: Alts := Last(Cons(One(Chr(A)), Nil))
  const LOOP: Item := Bra(1, BODY, Again(false, false))
  const REST: Branch := Cons(One(Chr(B)), Nil)
  const ROOT: Item := Bra(0, Last(Cons(LOOP, REST)), Once)

  const CODE: seq<int> := [
    OP_BRA, 0, 15,
    OP_CBRA, 0, 7, 0, 1, OP_CHAR, 97, OP_KETRMAX, 0, 7,
    OP_CHAR, 98,
    OP_KET, 0, 15,
    OP_END]

  /** Inside the second round of the group, which started at 1. */
  const SECOND: Kont := In(LOOP, 3, 1, true, REST, In(ROOT, 0, 0, true, Nil, Stop))

  const GROUPS: Groups := {(1, BODY)}

  lemma LoopThere()
    ensures WFItem(LOOP) && ItemAt(CODE, 3, LOOP) && ItemSize(LOOP) == 10 && EndsBranch(3, 5, BODY, 10) && !NullAlts(BODY)
  {
    var b := BODY.b;
    assert ItemSize(b.hd) == 2 && BranchSize(b) == 2 && AltsSize(5, BODY) == 7;
    assert BranchAt(CODE, 10, Nil) && ItemAt(CODE, 8, b.hd);
    assert BranchAt(CODE, 8, b);
    assert AltsAt(CODE, 3, 5, BODY);
    assert WFBranch(b) && !NullBranch(b);
  }

  lemma RootThere()
    ensures WFItem(ROOT) && ItemAt(CODE, 0, ROOT) && ItemSize(ROOT) == 18 && BranchSize(REST) == 2
    ensures BranchAt(CODE, 13, REST) && WFBranch(REST) && EndsBranch(0, 3, ROOT.alts, 15)
  {
    hide WFItem, ItemAt, ItemSize;
    LoopThere();
    RestThere();
    var b := Cons(LOOP, REST);
    assert BranchSize(b) == 12 && AltsSize(3, ROOT.alts) == 15;
    assert BranchAt(CODE, 3, b) && WFBranch(b);
    assert AltsAt(CODE, 0, 3, ROOT.alts) && WFAlts(ROOT.alts);
    RootParts();
  }

  lemma RestThere()
    ensures BranchSize(REST) == 2 && BranchAt(CODE, 13, REST) && WFBranch(REST) && !NullBranch(REST)
  {
    assert ItemSize(REST.hd) == 2 && ItemAt(CODE, 13, REST.hd) && BranchAt(CODE, 15, Nil);
  }

  lemma RootParts()
    requires AltsAt(CODE, 0, 3, ROOT.alts) && AltsSize(3, ROOT.alts) == 15 && WFAlts(ROOT.alts)
    ensures WFItem(ROOT) && ItemAt(CODE, 0, ROOT) && ItemSize(ROOT) == 18
  {
    hide AltsAt, AltsSize, WFAlts;
  }

  lemma SecondReady()
    ensures Ready(CODE, 3, Nil, SECOND, 10, 2, Empty)
  {
    hide ItemAt, WFItem, ItemSize, BranchAt, BranchSize, WFBranch;
    LoopThere();
    RootThere();
    NothingThere();
    assert KontAt(CODE, 15, SECOND.k);
    assert KontAt(CODE, 10, SECOND);
  }

  lemma NothingThere()
    ensures BranchAt(CODE, 10, Nil) && BranchAt(CODE, 18, Nil) && BranchSize(Nil) == 0 && WFBranch(Nil)
  {}

  lemma OneA(i: nat)
    requires i < 2
    ensures AltsL(BODY, AAC, i, i + 1)
    ensures forall j: nat :: AltsL(BODY, AAC, i, j) ==> j == i + 1
  {
    var b := BODY.b;
    assert ItemL(b.hd, AAC, i, i + 1) && BranchL(Nil, AAC, i + 1, i + 1);
    assert BranchL(b, AAC, i, i + 1);
  }

  lemma SecondUnderway()
    ensures Underway(GROUPS, Nil, SECOND, AAC, 2)
  {
    hide AltsL, BranchL, ItemL;
    OneA(1);
    assert ItemGroups(LOOP) == GROUPS && BranchGroups(REST) == {};
    assert BranchGroups(Cons(LOOP, REST)) == GROUPS && ItemGroups(ROOT) == GROUPS;
    assert Tracked(GROUPS, Nil, SECOND);
    forall m: nat | BranchL(Nil, AAC, 2, m) ensures AltsL(BODY, AAC, 1, m) { Language.NilL(AAC, 2, m); }
    forall m: nat | BranchL(Cons(LOOP, REST), AAC, 1, m) ensures AltsL(ROOT.alts, AAC, 0, m) { FromSecond(m); }
    assert Prefix(Cons(ROOT, Nil), Stop, AAC, 0);
  }

  /** What goes on from the second round completes a match that began at 0. */
  lemma FromSecond(m: nat)
    requires BranchL(Cons(LOOP, REST), AAC, 1, m)
    ensures AltsL(ROOT.alts, AAC, 0, m)
  {
    hide AltsL, BranchL, ItemL;
    var x := Language.Uncons(Cons(LOOP, REST), AAC, 1, m);
    OneA(0);
    RoundMore(LOOP, AAC, 0, 1, x);
    Language.ConsL(Cons(LOOP, REST), AAC, 0, x, m);
    Language.AltsSplit(ROOT.alts, AAC, 0, m);
  }

  /** From the end of the second round there is nothing to try. */
  lemma NothingTried(caps: Caps)
    ensures Tries(Nil, SECOND, AAC, At(Pos(2, caps), Empty)) == []
  {
    hide Tries;
    TriesKet(SECOND, AAC, 2, caps, Empty);
    var st := At(Pos(2, caps[1 := (1, 2)]), Empty);
    TriesEnter(Cons(LOOP, REST), SECOND.k, 3, true, AAC, st);
    var k := In(LOOP, 3, 2, true, REST, SECOND.k);
    AltsTriesSplit(BODY, k, AAC, st);
    NoChar(A, Nil, k, st);
    NoChar(B, Nil, SECOND.k, st);
  }

  lemma NoChar(c: byte, tl: Branch, k: Kont, st: At)
    requires st.p.i == 2 && c != 99
    ensures Tries(Cons(One(Chr(c)), tl), k, AAC, st) == []
  {
    hide Tries;
    TriesSingle(One(Chr(c)), tl, k, AAC, st);
  }

  lemma SecondSlots(ov: seq<int>, caps: Caps)
    requires |ov| == 6 && ov[2] == 0 && ov[3] == 1 && ov[5] == 1 && caps == map[1 := (0, 1)]
    ensures Slots(ov, 6, 4, 4, GROUPS, AAC, SECOND, caps)
  {
    hide AltsL;
    OneA(0);
    assert (1, BODY) in GROUPS;
    assert Spanned(GROUPS, AAC, 1, ov[2], ov[3]);
    hide Spanned;
    assert Good(ov, 4, 4, GROUPS, AAC);
    assert Starts(ov, 6, 4, SECOND.k);
    assert Starts(ov, 6, 4, SECOND);
    assert Shows(ov, 4, 4, caps, SECOND);
  }

  /** The pair held the first round; the call fails; the pair holds the second. */
  method SecondRoundFails() returns (before: (int, int), rrc: int, after: (int, int))
    ensures before == (0, 1) && rrc == MATCH_NOMATCH && after == (1, 2)
  {
    hide Ready, Underway, Slots, Tries, Shows;
    var offsets := new int[6](_ => 0);
    offsets[3], offsets[5] := 1, 1;
    before := (offsets[2], offsets[3]);
    var md := new MatchData(CODE, AAC, offsets, GROUPS);
    ghost var caps: Caps := map[1 := (0, 1)];
    SecondReady();
    SecondUnderway();
    SecondSlots(offsets[..], caps);
    md.TidyNow(4, SECOND, caps);
    rrc := md.MatchKet(2, 10, 4, Empty, SECOND, caps);
    NothingTried(caps);
    after := (offsets[2], offsets[3]);
  }
}
