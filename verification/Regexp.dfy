/** pcre_compile2() and the two phases together; then the whole way from a
    pattern to its leftmost match. */
module Regexp {
  import opened Opcodes
  import opened Tree
  import opened Kont
  import opened Pattern
  import opened Translate
  import opened FirstBytes
  import opened Measure
  import opened Replicate
  import opened Compile
  import opened Search
  import opened Spans
  import opened PatternGroups
  import opened Order
  import opened Backtrack
  import opened Flat
  import opened Prefer
  import opened Nesting
  import opened Spelling
  import opened Facts
  import opened Meanings
  import Language
  import FalseStart
  import Paths
  import Scan
  import Dfa

  const ERR23 := 23

  ghost predicate PatternAt(a: PAlts, s: seq<byte>, i: nat) {
    exists j: nat :: PAltsL(a, s, i, j)
  }

  /** The pattern matches nowhere in s that starts in [i, j). */
  ghost predicate PatternNotIn(a: PAlts, s: seq<byte>, i: int, j: int) {
    forall t: nat :: i <= t < j ==> !PatternAt(a, s, t)
  }

  lemma BytesTellPattern(a: PAlts)
    requires WFPAlts(a) && CoveredAlts(a)
    ensures var b := AltsBytes(a, false); BytesTell(CodeAlts(a, 0), ByteOr(b.first), ByteOr(b.req))
  {
    hide AltsL, PAltsL, AltsBytes, CodeAlts;
    var b := AltsBytes(a, false);
    forall s: seq<byte>, i: nat, j: nat | AltsL(CodeAlts(a, 0), s, i, j) ensures Has(b, s, i, j) {
      CodeSound(a, 0, s, i, j);
      AltsHave(a, false, s, i, j);
    }
  }

  lemma NoReq(alts: Alts, first: int, req: int)
    requires BytesTell(alts, first, req)
    ensures BytesTell(alts, first, -1)
  {
    hide AltsL, Occurs;
  }

  /** The code of the whole pattern, once closed and terminated. */
  ghost predicate CodeThere(c: seq<int>, alts: Alts) {
    var root := Bra(0, alts, Once);
    ItemAt(c, 0, root) && |c| == ItemSize(root) + 1 && c[|c| - 1] == OP_END
  }

  lemma ProgramThere(c: seq<int>, a: PAlts)
    requires WFPAlts(a) && var alts := CodeAlts(a, 0); var k := AltsSize(3, alts);
             && |c| == k + 4 && c[0] == OP_BRA && AltsAt(c, 0, 3, alts) && c[k] == OP_KET && Get(c, k + 1) == k && c[k + 3] == OP_END
    ensures CodeThere(c, CodeAlts(a, 0)) && Scan.GroupAt(c, 0, 3, CodeAlts(a, 0))
    ensures CoveredAlts(a) ==> Paths.Program(c, CodeAlts(a, 0))
  {
    hide AltsAt, AltsSize, CodeAlts, WFAlts, ShapedAlts, NullAlts;
    AltsShaped(a, 0);
    BraThere(c, 0, Bra(0, CodeAlts(a, 0), Once), |c| - 4);
  }

  lemma EndWritten(was: seq<int>, now: seq<int>, alts: Alts)
    requires AltsAt(was, 0, 3, alts) && |now| == |was| == AltsSize(3, alts) + 4 && now == was[|was| - 1 := OP_END]
    requires Get(was, |was| - 3) == |was| - 4 && was[|was| - 4] == OP_KET && was[0] == OP_BRA
    ensures AltsAt(now, 0, 3, alts) && Get(now, |now| - 3) == |now| - 4 && now[|now| - 4] == OP_KET && now[0] == OP_BRA
  {
    hide AltsAt, AltsSize;
    KetWritten(was, now, 0, 3, alts, |was| - 4);
  }

  /** The code matches what the pattern matches. */
  ghost predicate Same(a: PAlts, alts: Alts) {
    forall s: seq<byte>, i: nat, j: nat :: AltsL(alts, s, i, j) <==> PAltsL(a, s, i, j)
  }

  /** Measure, allocate, compile for real, and note what speeds up matching. */
  method PcreCompile(a: PAlts) returns (errorcode: int, re: Regex, ghost alts: Alts)
    requires WFPAlts(a)
    ensures errorcode == 0
    ensures alts == CodeAlts(a, 0) && CodeThere(re.code, alts)
    ensures re.top_bracket == AltsCaptures(a)
    ensures Noted(a, re.anchored, re.startline, re.first_byte, re.req_byte)
    ensures re.first_byte == if re.anchored then -1 else ByteOr(AltsBytes(a, false).first)
    ensures var req := AltsBytes(a, false).req; re.req_byte == if req.Byte? && (!re.anchored || req.vary) then req.c else -1
    ensures CoveredAlts(a) ==>
              Truthful(re, alts) && forall s: seq<byte>, i: nat, j: nat :: AltsL(alts, s, i, j) ==> PAltsL(a, s, i, j)
    ensures CoveredAlts(a) && SpelledAlts(a) ==> Same(a, alts)
  {
    hide AltsAt, AltsSize, AltsL, PAltsL, CodeAlts, AltsBytes, BytesTell, Get, NoSelf, AltsGroups, CodeThere, CoveredAlts, SpelledAlts, Paths.Program, Scan.GroupAt, Scan.AnchoredAlts, Scan.StartlineAlts, Noted;
    errorcode, alts := 0, CodeAlts(a, 0);
    if CoveredAlts(a) {
      forall s: seq<byte>, i: nat, j: nat | AltsL(alts, s, i, j) ensures PAltsL(a, s, i, j) { CodeSound(a, 0, s, i, j); }
      if SpelledAlts(a) {
        forall s: seq<byte>, i: nat, j: nat ensures AltsL(alts, s, i, j) <==> PAltsL(a, s, i, j) { AltsMatch(a, 0, s, i, j); }
      }
      BytesTellPattern(a);
    }
    var length := 1;
    var measured := MeasureRegex(0, 0, a, 0);
    length := length + measured;
    var codestart := new int[length];
    codestart[0] := OP_BRA;
    var cd := new CompileData(codestart);
    var code, firstbyte, reqbyte := cd.CompileRegex(0, 0, a);
    ghost var was := codestart[..];
    codestart[code] := OP_END;
    code := code + 1;
    EndWritten(was, codestart[..], alts);
    if code > length { errorcode := ERR23; }
    var c := codestart[..];
    ProgramThere(c, a);
    GroupsNested(a, 0);
    var first_byte: int, req_byte: int, startline := -1, -1, false;
    var anchored := Scan.IsAnchored(c, 0, 3, alts);
    if anchored {
      if CoveredAlts(a) { FirstIgnored(alts, ByteOr(firstbyte), ByteOr(reqbyte)); }
    } else if firstbyte.Byte? {
      first_byte := firstbyte.c;
    } else {
      startline := Scan.IsStartline(c, 0, 3, alts);
    }
    if reqbyte.Byte? && (!anchored || reqbyte.vary) {
      req_byte := reqbyte.c;
    } else {
      if CoveredAlts(a) { NoReq(alts, first_byte, ByteOr(reqbyte)); }
    }
    NotedRight(a, anchored, startline, first_byte, req_byte);
    re := Regex(c, anchored, startline, first_byte, req_byte, cd.bracount);
  }

  lemma SameNowhere(a: PAlts, alts: Alts, s: seq<byte>, i: int, j: int)
    requires forall u: nat, v: nat :: AltsL(alts, s, u, v) ==> PAltsL(a, s, u, v)
    ensures PatternNotIn(a, s, i, j) ==> NoneIn(alts, s, i, j)
    ensures Same(a, alts) ==> (NoneIn(alts, s, i, j) <==> PatternNotIn(a, s, i, j))
  {
    hide AltsL, PAltsL;
    forall t: nat ensures (MatchAt(alts, s, t) ==> PatternAt(a, s, t)) && (Same(a, alts) && PatternAt(a, s, t) ==> MatchAt(alts, s, t)) {
      if MatchAt(alts, s, t) { var v: nat :| AltsL(alts, s, t, v); assert PAltsL(a, s, t, v); }
      if Same(a, alts) && PatternAt(a, s, t) { var v: nat :| PAltsL(a, s, t, v); assert AltsL(alts, s, t, v); }
    }
  }

  /** Every capturing group of the pattern is unset or was given a stretch of
      the subject that the group, as written, matches. */
  ghost predicate GroupsMatch(a: PAlts, s: seq<byte>, offs: seq<int>) {
    forall g: nat :: 1 <= g <= AltsCaptures(a) && 2 * g + 1 < 2 * (|offs| / 3) ==>
      offs[2 * g] == -1 || GroupMatches(a, g, s, offs[2 * g], offs[2 * g + 1])
  }

  ghost predicate GroupMatches(a: PAlts, g: nat, s: seq<byte>, i: int, j: int) {
    0 <= i && 0 <= j && AltsGroup(a, 0, g).Is? && PAltsL(AltsGroup(a, 0, g).alts, s, i, j)
  }

  lemma {:induction false} PieceGroupCovered(p: Piece, n: nat, g: nat)
    requires CoveredPiece(p)
    ensures PieceGroup(p, n, g).Is? ==> CoveredAlts(PieceGroup(p, n, g).alts)
    decreases p, 1
  {
    if p.Group? { GroupCovered(p.alts, if p.capturing then n + 1 else n, g); }
  }

  lemma {:induction false} BranchGroupCovered(b: PBranch, n: nat, g: nat)
    requires CoveredBranch(b)
    ensures BranchGroup(b, n, g).Is? ==> CoveredAlts(BranchGroup(b, n, g).alts)
    decreases b, 0
  {
    hide CoveredPiece;
    if b.Then? {
      PieceGroupCovered(b.hd, n, g);
      BranchGroupCovered(b.tl, n + Captures(b.hd), g);
    }
  }

  /** The groups of a pattern are covered if the pattern is. */
  lemma {:induction false} GroupCovered(a: PAlts, n: nat, g: nat)
    requires CoveredAlts(a)
    ensures AltsGroup(a, n, g).Is? ==> CoveredAlts(AltsGroup(a, n, g).alts)
    decreases a, 0
  {
    hide CoveredBranch;
    BranchGroupCovered(a.b, n, g);
    if a.Or? { GroupCovered(a.rest, n + BranchCaptures(a.b), g); }
  }

  lemma CapturedGroups(a: PAlts, s: seq<byte>, offs: seq<int>)
    requires WFPAlts(a) && CoveredAlts(a) && Captured(offs, AltsCaptures(a), AltsGroups(CodeAlts(a, 0)), s)
    ensures GroupsMatch(a, s, offs)
  {
    hide AltsL, PAltsL, CodeAlts, AltsGroups, AltsGroup, AltsCaptures;
    forall g: nat | 1 <= g <= AltsCaptures(a) && 2 * g + 1 < 2 * (|offs| / 3) && offs[2 * g] != -1
      ensures GroupMatches(a, g, s, offs[2 * g], offs[2 * g + 1])
    {
      var i, j := offs[2 * g], offs[2 * g + 1];
      assert Spanned(AltsGroups(CodeAlts(a, 0)), s, g, i, j);
      var alts :| (g, alts) in AltsGroups(CodeAlts(a, 0)) && AltsL(alts, s, i, j);
      AltsNumbers(a, 0, (g, alts));
      GroupCovered(a, 0, g);
      CodeSound(AltsGroup(a, 0, g).alts, g, s, i, j);
    }
  }

  /** The preferred match from offs[0]: its end, and what it captured last in
      every group. */
  ghost predicate Preferred(a: PAlts, s: seq<byte>, offs: seq<int>)
    requires |offs| >= 2 && offs[0] >= 0
  {
    var best := PAltsO(a, 0, s, Pos(offs[0], map[]));
    && best != [] && offs[1] == best[0].i
    && forall g: nat :: 1 <= g <= AltsCaptures(a) && 2 * g + 1 < 2 * (|offs| / 3) ==>
         (offs[2 * g], offs[2 * g + 1]) == Pair(best[0].caps, g)
  }

  /** What is tried first is what is preferred, unless loops that may match
      nothing are nested. */
  lemma FirstPreferred(a: PAlts, s: seq<byte>, offs: seq<int>)
    requires WFPAlts(a) && CoveredAlts(a) && SpelledAlts(a) && ApartPAlts(a) && |offs| >= 2 && offs[0] >= 0
    requires Reports(offs, AltsCaptures(a), Attempts(CodeAlts(a, 0), s, offs[0]))
    ensures Preferred(a, s, offs)
  {
    hide AltsO, AltsM, PAltsO, CodeAlts, ApartAlts, ApartPAlts, AltsCaptures, CoveredAlts, SpelledAlts;
    var alts, p: Pos := CodeAlts(a, 0), Pos(offs[0], map[]);
    ApartCode(a, 0);
    AltsOrder(alts, s, At(p, Empty));
    AltsSame(a, 0, s, p);
    FirstPos(Attempts(alts, s, offs[0]));
  }

  lemma FirstPos(ms: seq<At>)
    requires ms != []
    ensures Positions(ms) != [] && Positions(ms)[0] == ms[0].p
  {}

  /** A pair of slots for every group of the pattern is enough for the code. */
  lemma RoomForPattern(a: PAlts, n: nat)
    requires WFPAlts(a) && AltsCaptures(a) < n / 3
    ensures RoomForAll(AltsGroups(CodeAlts(a, 0)), n)
  {
    hide AltsGroups, CodeAlts, AltsCaptures, AltsGroup;
    forall g | g in AltsGroups(CodeAlts(a, 0)) ensures 2 * g.0 < 2 * (n / 3) { AltsNumbers(a, 0, g); }
  }

  /** Compiling a pattern and running it finds the leftmost place where the
      pattern, as written, matches: none if and only if there is none. Where the
      text misleads check_auto_possessive() this holds of the code only; what is
      reported is a match of the pattern all the same. */
  method CompileAndExec(a: PAlts, s: seq<byte>, start_offset: nat, optimize: bool, offsets: array<int>) returns (rc: int)
    requires WFPAlts(a) && CoveredAlts(a) && start_offset <= |s|
    modifies offsets
    ensures rc == Dfa.PCRE_ERROR_NOMATCH <==> NoneIn(CodeAlts(a, 0), s, start_offset, |s| + 1)
    ensures PatternNotIn(a, s, start_offset, |s| + 1) ==> rc == Dfa.PCRE_ERROR_NOMATCH
    ensures SpelledAlts(a) && rc == Dfa.PCRE_ERROR_NOMATCH ==> PatternNotIn(a, s, start_offset, |s| + 1)
    ensures rc != Dfa.PCRE_ERROR_NOMATCH && offsets.Length >= 2 ==>
              && start_offset <= offsets[0] && 0 <= offsets[1] && PAltsL(a, s, offsets[0], offsets[1])
              && (SpelledAlts(a) ==> PatternNotIn(a, s, start_offset, offsets[0]))
    ensures rc != Dfa.PCRE_ERROR_NOMATCH && offsets.Length >= 2 ==>
              && Reports(offsets[..], AltsCaptures(a), Attempts(CodeAlts(a, 0), s, offsets[0]))
              && (SpelledAlts(a) && ApartPAlts(a) ==> Preferred(a, s, offsets[..]))
    ensures rc != Dfa.PCRE_ERROR_NOMATCH ==> GroupsMatch(a, s, offsets[..])
    ensures rc > 0 ==> UnsetFrom(offsets[..], rc, AltsCaptures(a))
    ensures rc > 1 ==> offsets.Length >= 2 && rc - 1 in Attempts(CodeAlts(a, 0), s, offsets[0])[0].p.caps
    ensures rc != Dfa.PCRE_ERROR_NOMATCH && 0 < offsets.Length / 3 && AltsCaptures(a) < offsets.Length / 3 ==> rc > 0
  {
    hide AltsL, PAltsL, Truthful, NoneIn, PatternNotIn, Captured, GroupsMatch, CodeAlts, Attempts, Reports, Preferred, ApartPAlts, AltsCaptures, CoveredAlts, SpelledAlts, CodeThere, Same, RoomForAll, UnsetFrom;
    var errorcode, re, alts := PcreCompile(a);
    if AltsCaptures(a) < offsets.Length / 3 { RoomForPattern(a, offsets.Length); }
    rc := PcreExec(re, s, start_offset, false, optimize, offsets, alts);
    SameNowhere(a, alts, s, start_offset, |s| + 1);
    if rc != Dfa.PCRE_ERROR_NOMATCH { CapturedGroups(a, s, offsets[..]); }
    if rc != Dfa.PCRE_ERROR_NOMATCH && offsets.Length >= 2 {
      SameNowhere(a, alts, s, start_offset, offsets[0]);
      if SpelledAlts(a) && ApartPAlts(a) { FirstPreferred(a, s, offsets[..]); }
    }
  }

  /** Compiling a pattern and following all states at once records the ends of
      all its matches from the start, the longest first. */
  method CompileAndDfaExec(a: PAlts, s: seq<byte>, start: nat, offsets: array<int>, wscount: nat)
    returns (rc: int, ghost ends: seq<nat>)
    requires WFPAlts(a) && CoveredAlts(a) && start <= |s|
    modifies offsets
    ensures rc != Dfa.PCRE_ERROR_DFA_WSSIZE ==>
              && Dfa.Recorded(offsets[..], start, ends, rc)
              && (forall x, y :: 0 <= x < y < |ends| ==> ends[x] < ends[y])
              && (forall j: nat :: j in ends <==> AltsL(CodeAlts(a, 0), s, start, j))
              && (forall j: nat :: j in ends ==> PAltsL(a, s, start, j))
              && (SpelledAlts(a) ==> forall j: nat :: PAltsL(a, s, start, j) ==> j in ends)
  {
    hide AltsL, PAltsL, BytesTell, Paths.Program, CodeAlts, CoveredAlts, SpelledAlts, CodeThere;
    var errorcode, re, alts := PcreCompile(a);
    rc, ends := Dfa.InternalDfaExec(re.code, s, start, offsets, wscount, alts);
  }

  // ---- A pattern that ends in an anchor ----

  /** A match of the branch from `i`, with what the anchor wants behind it. */
  ghost predicate StandsAt(b: PBranch, op: int, s: seq<byte>, i: nat) {
    exists j: nat :: PBranchL(b, s, i, j) && j <= |s| && Stands(op, s[..j], s[j..])
  }

  lemma AnchoredAt(b: PBranch, op: int, s: seq<byte>, i: nat)
    requires IsZeroOp(op)
    ensures PatternAt(Only(Behind(b, Place(op))), s, i) <==> StandsAt(b, op, s, i)
  {
    hide PBranchL, Stands;
    var a := Only(Behind(b, Place(op)));
    if PatternAt(a, s, i) {
      var j: nat :| PAltsL(a, s, i, j);
      AnchorLast(b, op, s, i, j);
    }
    if StandsAt(b, op, s, i) {
      var j: nat :| PBranchL(b, s, i, j) && j <= |s| && Stands(op, s[..j], s[j..]);
      AnchorLast(b, op, s, i, j);
      assert PAltsL(a, s, i, j);
    }
  }

  /** pcre_exec() with an anchor at the end of the pattern: for $ and \Z it finds
      the leftmost match of what is before the anchor that goes up to the end of
      the subject, or up to a newline at its end. */
  method ExecToAnchor(b: PBranch, op: int, s: seq<byte>, start_offset: nat, optimize: bool, offsets: array<int>) returns (rc: int)
    requires IsZeroOp(op) && start_offset <= |s|
    requires var a := Only(Behind(b, Place(op))); WFPAlts(a) && CoveredAlts(a) && SpelledAlts(a)
    modifies offsets
    ensures rc == Dfa.PCRE_ERROR_NOMATCH <==> forall i: nat :: start_offset <= i <= |s| ==> !StandsAt(b, op, s, i)
    ensures rc != Dfa.PCRE_ERROR_NOMATCH && offsets.Length >= 2 ==>
              && start_offset <= offsets[0] <= offsets[1] <= |s| && PBranchL(b, s, offsets[0], offsets[1])
              && Stands(op, s[..offsets[1]], s[offsets[1]..])
              && forall i: nat :: start_offset <= i < offsets[0] ==> !StandsAt(b, op, s, i)
  {
    hide PBranchL, Stands, CodeAlts, NoneIn, WFPAlts, CoveredAlts, SpelledAlts, PatternAt, StandsAt, Reports, Attempts, Preferred, GroupsMatch, ApartPAlts, UnsetFrom, AltsCaptures;
    var a := Only(Behind(b, Place(op)));
    forall i: nat ensures PatternAt(a, s, i) <==> StandsAt(b, op, s, i) { AnchoredAt(b, op, s, i); }
    rc := CompileAndExec(a, s, start_offset, optimize, offsets);
    if rc != Dfa.PCRE_ERROR_NOMATCH && offsets.Length >= 2 {
      AnchorLast(b, op, s, offsets[0], offsets[1]);
      PBranchRange(b, s, offsets[0], offsets[1]);
    }
  }

  // ---- A pattern that the compiler misreads ----

  /** a+b{00,1}a */
  const MISREAD: PAlts := Only(Unseen(Chr(97), 1, false, Chr(98), Quant(0, 1, false, false, false), Chr(97)))

  lemma MisreadNotFound()
    ensures WFPAlts(MISREAD) && CoveredAlts(MISREAD) && !SpelledAlts(MISREAD)
    ensures PAltsL(MISREAD, [97, 97], 0, 2) && NoneIn(CodeAlts(MISREAD, 0), [97, 97], 0, 3)
  {
    hide BranchL, PBranchL, CodeBranch;
    var x, q := Chr(97), Quant(0, 1, false, false, false);
    assert Often(97, 1) == [97, 97];
    UnseenCovered(x, 1, false, Chr(98), q, x);
    Spelling.Lost(x, 1, false, Chr(98), q, x, 97);
    var code := Emitted(x, 1, false, Chr(98), q, x);
    assert CodeAlts(MISREAD, 0) == Last(code);
    forall t: nat ensures !MatchAt(CodeAlts(MISREAD, 0), [97, 97], t) {
      forall v: nat ensures !AltsL(CodeAlts(MISREAD, 0), [97, 97], t, v) { Language.AltsSplit(Last(code), [97, 97], t, v); }
    }
  }

  /** pcre_exec() finds nothing in "aa", although the pattern matches it. */
  method MisreadExec(offsets: array<int>) returns (rc: int)
    modifies offsets
    ensures rc == Dfa.PCRE_ERROR_NOMATCH && PAltsL(MISREAD, [97, 97], 0, 2)
  {
    hide NoneIn, PAltsL, CodeAlts, WFPAlts, CoveredAlts, SpelledAlts, PatternNotIn, Reports, Attempts, Preferred, GroupsMatch;
    MisreadNotFound();
    rc := CompileAndExec(MISREAD, [97, 97], 0, true, offsets);
  }

  /** With nested loops pcre_exec() stops after the first byte of "xy", where the
      preferred match has both. */
  method NestedExec(offsets: array<int>) returns (rc: int)
    requires offsets.Length >= 2
    modifies offsets
    ensures rc != Dfa.PCRE_ERROR_NOMATCH && offsets[0] == 0 && offsets[1] == 1
    ensures var best := PAltsO(FalseStart.Any(FalseStart.OUTER), 0, FalseStart.XY, Pos(0, map[])); best != [] && best[0].i == 2
  {
    hide NoneIn, PAltsL, CodeAlts, PAltsO, AltsM, WFPAlts, CoveredAlts, SpelledAlts, PatternNotIn, Preferred, GroupsMatch, Ends, AltsCaptures;
    var a := FalseStart.Any(FalseStart.OUTER);
    FalseStart.NestedLoopsDiffer();
    PreferredMatches(a, FalseStart.XY);
    rc := CompileAndExec(a, FalseStart.XY, 0, true, offsets);
    StartsAtOnce(a, FalseStart.XY, 2, |FalseStart.XY| + 1);
    if rc != Dfa.PCRE_ERROR_NOMATCH { StartsAtOnce(a, FalseStart.XY, 2, offsets[0]); }
  }

  lemma PreferredMatches(a: PAlts, s: seq<byte>)
    requires WFPAlts(a) && CoveredAlts(a) && SpelledAlts(a)
    ensures var best := PAltsO(a, 0, s, Pos(0, map[])); best != [] ==> PAltsL(a, s, 0, best[0].i)
  {
    hide PAltsL, PAltsO, CoveredAlts, SpelledAlts, WFPAlts;
    var best := PAltsO(a, 0, s, Pos(0, map[]));
    if best != [] {
      assert Ends(best, best[0].i);
      PatternListed(a, 0, s, Pos(0, map[]), best[0].i);
    }
  }

  lemma StartsAtOnce(a: PAlts, s: seq<byte>, j: nat, to: int)
    requires PAltsL(a, s, 0, j)
    ensures to > 0 ==> !PatternNotIn(a, s, 0, to)
  {
    hide PAltsL;
    assert PatternAt(a, s, 0);
  }
}
