/** pcre_exec(): the search for the leftmost match, with its start
    optimisations, and the agreement of the two matchers. */
module Search {
  import opened Opcodes
  import opened Tree
  import opened Language
  import opened Kont
  import opened Moves
  import opened Exec
  import opened Spans
  import opened FirstBytes
  import opened Order
  import opened Backtrack
  import Paths
  import Dfa
  import Scan

  const PCRE_ERROR_BADOFFSET := -24
  const REQ_BYTE_MAX := 1000

  /** A compiled pattern with what the compiler found out about it; -1 stands
      for no first or required byte. */
  datatype Regex = Regex(code: seq<int>, anchored: bool, startline: bool, first_byte: int, req_byte: int, top_bracket: nat)

  ghost predicate MatchAt(alts: Alts, s: seq<byte>, i: nat) {
    exists j: nat :: AltsL(alts, s, i, j)
  }

  /** The first byte, and the required byte after it, are there in every match. */
  ghost predicate BytesTell(alts: Alts, first: int, req: int) {
    forall s: seq<byte>, i: nat, j: nat :: AltsL(alts, s, i, j) ==>
      (first >= 0 ==> i < j <= |s| && s[i] == first) &&
      (req >= 0 ==> Occurs(req, s, if first >= 0 then i + 1 else i, j))
  }

  /** What the compiler guarantees of its result. */
  ghost predicate Truthful(re: Regex, alts: Alts) {
    Paths.Program(re.code, alts) && NoSelf(AltsGroups(alts)) &&
    (re.anchored ==> Scan.AnchoredAlts(alts)) && (re.startline ==> Scan.StartlineAlts(alts)) &&
    BytesTell(alts, re.first_byte, re.req_byte)
  }

  /** No match starts in s[i..j]. */
  ghost predicate NoneIn(alts: Alts, s: seq<byte>, i: int, j: int) {
    forall t: nat :: i <= t < j ==> !MatchAt(alts, s, t)
  }

  // ---- One call of match() from the start of the code ----

  lemma RootReady(code: seq<int>, alts: Alts, n: nat, i: nat)
    requires Paths.Program(code, alts) && i <= n
    ensures Ready(code, n, Cons(Bra(0, alts, Once), Nil), Stop, 0, i, Empty)
  {
    hide ItemAt, WFItem, ItemSize, Get;
    var root := Bra(0, alts, Once);
    RootBranch(code, root);
    assert KontAt(code, ItemSize(root), Stop);
  }

  lemma RootBranch(code: seq<int>, it: Item)
    requires it.Bra? && WFItem(it) && ItemAt(code, 0, it) && ItemSize(it) < |code|
    ensures var tail := Cons(it, Nil);
            WFBranch(tail) && BranchAt(code, 0, tail) && BranchSize(tail) == ItemSize(it)
  {
    hide ItemAt, WFItem;
    assert BranchAt(code, ItemSize(it), Nil);
  }

  lemma RootLanguage(alts: Alts, s: seq<byte>, i: nat, j: nat)
    ensures var tail := Cons(Bra(0, alts, Once), Nil);
            (ReachS(tail, Stop, s, i, j) ==> AltsL(alts, s, i, j)) && (AltsL(alts, s, i, j) ==> ReachC(tail, Stop, s, i, j))
  {
    hide AltsL, BranchL, ItemL;
    var root := Bra(0, alts, Once);
    var tail := Cons(root, Nil);
    BraL(root, s, i, j);
    AltsRange(alts, s, i, j);
    if ReachS(tail, Stop, s, i, j) {
      var m: nat :| BranchL(tail, s, i, m) && KontS(Stop, s, m, j);
      var x := Uncons(tail, s, i, m);
      NilL(s, x, m);
    }
    if AltsL(alts, s, i, j) {
      NilL(s, j, j);
      ConsL(tail, s, i, j, j);
      assert KontC(Stop, s, j, j);
    }
  }

  /** All that match() tries from `i`, in order. */
  function Attempts(alts: Alts, s: seq<byte>, i: nat): seq<At> {
    AltsM(alts, s, At(Pos(i, map[]), Empty))
  }

  lemma RootTries(alts: Alts, s: seq<byte>, i: nat)
    ensures Tries(Cons(Bra(0, alts, Once), Nil), Stop, s, At(Pos(i, map[]), Empty)) == Attempts(alts, s, i)
  {
    hide AltsM, ItemM, Tries;
    var root, st := Bra(0, alts, Once), At(Pos(i, map[]), Empty);
    TriesCons(root, Nil, Stop, s, st);
    forall e: At ensures Onward(Nil, Stop, s)(e) == [e] { TriesNil(Stop, s, e); }
    BindUnit(ItemM(root, s, st), Onward(Nil, Stop, s));
    BraM(root, s, st);
    BindUnit(AltsM(alts, s, st), AfterM(root, i, s));
  }

  lemma RootLost(alts: Alts, s: seq<byte>, i: nat)
    requires Lost(true, Cons(Bra(0, alts, Once), Nil), 0, Stop, s, i)
    ensures !MatchAt(alts, s, i)
  {
    hide AltsL, ReachS;
    if MatchAt(alts, s, i) {
      var j: nat :| AltsL(alts, s, i, j);
      RootLanguage(alts, s, i, j);
    }
  }

  lemma RootUnderway(alts: Alts, s: seq<byte>, i: nat)
    requires NoSelf(AltsGroups(alts))
    ensures Underway(AltsGroups(alts), Cons(Bra(0, alts, Once), Nil), Stop, s, i)
  {
    assert BranchGroups(Cons(Bra(0, alts, Once), Nil)) == AltsGroups(alts);
  }

  lemma Thirds(end: nat, max: nat)
    requires end % 3 == 0 && max == 2 * end / 3
    ensures max % 2 == 0 && max <= end
  {
    var q := end / 3;
    assert end == 3 * q;
  }

  lemma FreshSlots(ov: seq<int>, max: nat, end: nat, all: Groups, s: seq<byte>)
    requires max % 2 == 0 && max <= |ov|
    ensures Slots(ov, end, max, 2, all, s, Stop, map[])
  {
    hide AltsL, Spanned;
  }

  /** match() finds a match from `start` exactly when there is one, and reports
      the end of one. */
  method MatchFrom(md: MatchData, start: nat, ghost alts: Alts) returns (rc: int)
    requires md.Valid() && Paths.Program(md.code, alts) && start <= |md.subject|
    requires md.groups == AltsGroups(alts) && NoSelf(md.groups)
    modifies md, md.offset_vector
    ensures rc == MATCH_MATCH || rc == MATCH_NOMATCH
    ensures md.Answers(rc, Attempts(alts, md.subject, start))
    ensures rc == MATCH_MATCH ==> md.Told()
    ensures md.Roomy() ==> md.offset_overflow == old(md.offset_overflow)
    ensures rc == MATCH_MATCH ==> AltsL(alts, md.subject, start, md.end_match_ptr)
    ensures rc == MATCH_NOMATCH ==> !MatchAt(alts, md.subject, start)
  {
    hide MatchData.Roomy, Ready, ReachS, Lost, AltsL, Paths.Program, MatchAt, Underway, NoSelf, Slots, Tries, AltsM;
    md.match_function_type := false;
    md.end_offset_top := 0;
    RootReady(md.code, alts, |md.subject|, start);
    RootUnderway(alts, md.subject, start);
    Thirds(md.offset_end, md.offset_max);
    FreshSlots(md.offset_vector[..], md.offset_max, md.offset_end, md.groups, md.subject);
    md.TidyNow(2, Stop, map[]);
    RootTries(alts, md.subject, start);
    rc := md.Match(start, 0, 2, Empty, Cons(Bra(0, alts, Once), Nil), Stop, map[], true);
    if rc == MATCH_MATCH {
      RootLanguage(alts, md.subject, start, md.end_match_ptr);
    } else {
      RootLost(alts, md.subject, start);
    }
  }

  /** The two matchers agree: the state lists record some match exactly when
      backtracking finds one, and the end it reports is among those recorded. */
  method BothEngines(code: seq<int>, s: seq<byte>, start: nat, offsets: array<int>, dfaOffsets: array<int>, wscount: nat,
                     ghost alts: Alts)
    returns (rc: int, end: nat, dfa: int, ghost ends: seq<nat>)
    requires Paths.Program(code, alts) && NoSelf(AltsGroups(alts)) && start <= |s| && offsets != dfaOffsets
    modifies offsets, dfaOffsets
    ensures rc == MATCH_MATCH || rc == MATCH_NOMATCH
    ensures dfa != Dfa.PCRE_ERROR_DFA_WSSIZE ==>
              && Dfa.Recorded(dfaOffsets[..], start, ends, dfa)
              && (rc == MATCH_MATCH <==> dfa >= 0)
              && (rc == MATCH_MATCH <==> ends != [])
              && (rc == MATCH_MATCH ==> end in ends)
  {
    hide Paths.Program, AltsL;
    var md := new MatchData(code, s, offsets, AltsGroups(alts));
    rc := MatchFrom(md, start, alts);
    end := md.end_match_ptr;
    dfa, ends := Dfa.InternalDfaExec(code, s, start, dfaOffsets, wscount, alts);
    if dfa != Dfa.PCRE_ERROR_DFA_WSSIZE && ends != [] {
      assert ends[0] in ends;
      assert AltsL(alts, s, start, ends[0]);
    }
  }

  // ---- Start optimisations ----

  /** On to the next occurrence of the first byte: no match starts on the way. */
  method SkipToFirst(s: seq<byte>, start: nat, first: int, req: int, ghost alts: Alts) returns (i: nat)
    requires start <= |s| && first >= 0 && BytesTell(alts, first, req)
    ensures start <= i <= |s| && NoneIn(alts, s, start, i)
  {
    hide AltsL, Occurs;
    i := start;
    while i < |s| && s[i] != first
      invariant start <= i <= |s| && NoneIn(alts, s, start, i)
    {
      i := i + 1;
    }
  }

  lemma NotAfterNewline(alts: Alts, s: seq<byte>, i: nat)
    requires WFAlts(alts) && Scan.StartlineAlts(alts) && 0 < i <= |s| && s[i - 1] != CHAR_NL && !MatchAt(alts, s, i - 1)
    ensures !MatchAt(alts, s, i)
  {
    hide AltsL, WFAlts, Scan.StartlineAlts;
    if MatchAt(alts, s, i) {
      var j: nat :| AltsL(alts, s, i, j);
      Scan.StartlineEarlier(alts, s, i, j);
    }
  }

  /** On to the next line start: no match starts on the way, because none
      starts just before. */
  method SkipToLine(s: seq<byte>, start: nat, start_offset: nat, ghost alts: Alts) returns (i: nat)
    requires start_offset < start <= |s| && WFAlts(alts) && Scan.StartlineAlts(alts)
    requires NoneIn(alts, s, start_offset, start)
    ensures start <= i <= |s| && NoneIn(alts, s, start_offset, i)
  {
    hide MatchAt, WFAlts, Scan.StartlineAlts;
    i := start;
    while i < |s| && s[i - 1] != CHAR_NL
      invariant start <= i <= |s| && NoneIn(alts, s, start_offset, i)
    {
      NotAfterNewline(alts, s, i);
      i := i + 1;
    }
  }

  /** The first occurrence of the required byte from `from` on. */
  method FindReq(s: seq<byte>, from: nat, req: int) returns (p: nat)
    ensures p >= from && !Occurs(req, s, from, if p < |s| then p else |s|)
    ensures p < |s| ==> s[p] == req
  {
    p := from;
    while p < |s|
      invariant from <= p && forall t :: from <= t < p && t < |s| ==> s[t] != req
    {
      if s[p] == req { return; }
      p := p + 1;
    }
  }

  /** Without the required byte ahead, no match starts here or later. */
  lemma NoReqNoMatch(alts: Alts, first: int, req: int, s: seq<byte>, i: nat)
    requires BytesTell(alts, first, req) && req >= 0 && i <= |s|
    requires !Occurs(req, s, if first >= 0 then i + 1 else i, |s|)
    ensures NoneIn(alts, s, i, |s| + 1)
  {
    hide AltsL;
    forall t: nat | i <= t < |s| + 1 && MatchAt(alts, s, t) ensures false { MatchHasReq(alts, first, req, s, i, t); }
  }

  lemma MatchHasReq(alts: Alts, first: int, req: int, s: seq<byte>, i: nat, t: nat)
    requires BytesTell(alts, first, req) && req >= 0 && i <= t && MatchAt(alts, s, t)
    ensures Occurs(req, s, if first >= 0 then i + 1 else i, |s|)
  {
    hide AltsL;
    var j: nat :| AltsL(alts, s, t, j);
    var at := if first >= 0 then t + 1 else t;
    var u: nat :| at <= u < j <= |s| && s[u] == req;
  }

  lemma AnchoredOnce(alts: Alts, s: seq<byte>, i: nat)
    requires WFAlts(alts) && Scan.AnchoredAlts(alts) && !MatchAt(alts, s, i)
    ensures NoneIn(alts, s, i, |s| + 1)
  {
    hide AltsL, WFAlts, Scan.AnchoredAlts;
    forall t: nat | i <= t < |s| + 1 ensures !MatchAt(alts, s, t) {
      if MatchAt(alts, s, t) {
        var j: nat :| AltsL(alts, s, t, j);
        Scan.AnchoredEarlier(alts, s, t, i, j);
      }
    }
  }

  lemma ProgramWF(code: seq<int>, alts: Alts)
    requires Paths.Program(code, alts)
    ensures WFAlts(alts)
  {
    hide ItemAt, ItemSize;
    WFBra(Bra(0, alts, Once));
  }

  // ---- The search ----

  /** The loop of pcre_exec(): the leftmost match from `start_offset` on, or
      only one that starts there if that is asked for. */
  method BumpAlong(md: MatchData, re: Regex, start_offset: nat, anchored_option: bool, optimize: bool, ghost alts: Alts)
    returns (rc: int, start_match: nat)
    requires md.Valid() && md.code == re.code && md.groups == AltsGroups(alts) && Truthful(re, alts) && start_offset <= |md.subject|
    modifies md, md.offset_vector
    ensures rc == MATCH_MATCH || rc == MATCH_NOMATCH
    ensures rc == MATCH_MATCH ==> md.Told() && md.Answers(rc, Attempts(alts, md.subject, start_match))
    ensures rc == MATCH_MATCH ==> start_offset <= start_match && AltsL(alts, md.subject, start_match, md.end_match_ptr)
    ensures rc == MATCH_MATCH ==> NoneIn(alts, md.subject, start_offset, start_match)
    ensures rc == MATCH_NOMATCH ==> NoneIn(alts, md.subject, start_offset, if anchored_option then start_offset + 1 else |md.subject| + 1)
    ensures md.Roomy() ==> md.offset_overflow == old(md.offset_overflow)
    ensures rc == MATCH_MATCH && anchored_option ==> start_match == start_offset
  {
    hide MatchData.Roomy, AltsL, Attempts, MatchAt, BytesTell, Paths.Program, Occurs, WFAlts, Scan.AnchoredAlts, Scan.StartlineAlts, NoSelf;
    ProgramWF(re.code, alts);
    var anchored := re.anchored || anchored_option;
    var first_byte := if anchored then -1 else re.first_byte;
    var req_byte := re.req_byte;
    FirstIgnored(alts, re.first_byte, req_byte);
    var req_byte_ptr: int := start_offset - 1;
    var s := md.subject;
    start_match := start_offset;
    while true
      invariant start_offset <= start_match <= |s| && NoneIn(alts, s, start_offset, start_match)
      invariant anchored ==> start_match == start_offset
      invariant md.Roomy() ==> md.offset_overflow == old(md.offset_overflow)
      decreases |s| - start_match
    {
      if optimize {
        if first_byte >= 0 {
          start_match := SkipToFirst(s, start_match, first_byte, req_byte, alts);
        } else if re.startline && start_match > start_offset {
          start_match := SkipToLine(s, start_match, start_offset, alts);
        }
        if req_byte >= 0 && |s| - start_match < REQ_BYTE_MAX {
          var from := start_match + if first_byte >= 0 then 1 else 0;
          if from > req_byte_ptr {
            var p := FindReq(s, from, req_byte);
            if p >= |s| {
              NoReqNoMatch(alts, first_byte, req_byte, s, start_match);
              return MATCH_NOMATCH, start_match;
            }
            req_byte_ptr := p;
          }
        }
      }
      rc := MatchFrom(md, start_match, alts);
      if rc == MATCH_MATCH { return; }
      if anchored {
        if re.anchored { AnchoredOnce(alts, s, start_match); }
        return;
      }
      start_match := start_match + 1;
      if start_match > |s| { return; }
    }
  }

  /** Whatever holds after a first byte holds after the start. */
  lemma FirstIgnored(alts: Alts, first: int, req: int)
    requires BytesTell(alts, first, req)
    ensures BytesTell(alts, -1, req)
  {
    hide AltsL;
    forall s: seq<byte>, i: nat, j: nat | AltsL(alts, s, i, j) && req >= 0 ensures Occurs(req, s, i, j) {
      var at := if first >= 0 then i + 1 else i;
      assert Occurs(req, s, at, j);
      var t: nat :| at <= t < j <= |s| && s[t] == req;
    }
  }

  /** Every pair of slots for a group is unset or holds a stretch that the group
      matches. */
  ghost predicate Captured(offs: seq<int>, top_bracket: nat, all: Groups, s: seq<byte>) {
    forall c: nat :: 1 <= c <= top_bracket && 2 * c + 1 < 2 * (|offs| / 3) ==>
      offs[2 * c] == -1 || Spanned(all, s, c, offs[2 * c], offs[2 * c + 1])
  }

  /** The pairs of slots from number `rc` on are unset. */
  ghost predicate UnsetFrom(offs: seq<int>, rc: int, top_bracket: nat) {
    forall c: nat :: rc <= c <= top_bracket && 2 * c + 1 < 2 * (|offs| / 3) ==> offs[2 * c] == -1 == offs[2 * c + 1]
  }

  lemma AllCaptured(was: seq<int>, now: seq<int>, ocount: nat, top: nat, top_bracket: nat, all: Groups, s: seq<byte>)
    requires top % 2 == 0 && |was| == |now| && ocount == |was| - |was| % 3 && Good(was, 2 * ocount / 3, top, all, s)
    requires forall x :: 2 <= x < |was| ==>
               now[x] == if top / 2 <= top_bracket && top <= x < (if 2 + top_bracket * 2 > |was| then ocount else 2 + top_bracket * 2)
                         then -1 else was[x]
    ensures Captured(now, top_bracket, all, s) && (top >= 2 ==> UnsetFrom(now, top / 2, top_bracket))
  {
    hide Spanned;
    forall c: nat | 1 <= c <= top_bracket && 2 * c + 1 < 2 * (|now| / 3)
      ensures now[2 * c] == -1 || Spanned(all, s, c, now[2 * c], now[2 * c + 1])
    {
      if 2 * c < top && now[2 * c] != -1 { assert now[2 * c] == was[2 * c]; }
    }
  }

  /** The end of the match and the pairs of all groups are those of the first of
      `tries`. */
  ghost predicate Reports(offs: seq<int>, top_bracket: nat, tries: seq<At>)
    requires |offs| >= 2
  {
    && tries != [] && offs[1] == tries[0].p.i
    && forall c: nat :: 1 <= c <= top_bracket && 2 * c + 1 < 2 * (|offs| / 3) ==>
         (offs[2 * c], offs[2 * c + 1]) == Pair(tries[0].p.caps, c)
  }

  lemma AllReported(was: seq<int>, now: seq<int>, ocount: nat, top: nat, top_bracket: nat, tries: seq<At>)
    requires top % 2 == 0 && |was| == |now| >= 2 && ocount == |was| - |was| % 3
    requires tries != [] && tries[0].p.i == now[1] && Shows(was, 2 * ocount / 3, top, tries[0].p.caps, Stop)
    requires forall x :: 2 <= x < |was| ==>
               now[x] == if top / 2 <= top_bracket && top <= x < (if 2 + top_bracket * 2 > |was| then ocount else 2 + top_bracket * 2)
                         then -1 else was[x]
    ensures Reports(now, top_bracket, tries) && (top > 2 ==> top / 2 - 1 in tries[0].p.caps)
  {
    forall c: nat | 1 <= c <= top_bracket && 2 * c + 1 < 2 * (|now| / 3)
      ensures (now[2 * c], now[2 * c + 1]) == Pair(tries[0].p.caps, c)
    {
      if 2 * c < top { assert (was[2 * c], was[2 * c + 1]) == Pair(tries[0].p.caps, c); }
    }
  }

  lemma TopPositive(ov: seq<int>, max: nat, top: nat, caps: Caps)
    requires Shows(ov, max, top, caps, Stop)
    ensures top >= 2
  {}

  /** The vector has a pair of slots for every group. */
  ghost predicate RoomForAll(all: Groups, n: nat) {
    forall g :: g in all ==> 2 * g.0 < 2 * (n / 3)
  }

  lemma RoomThere(all: Groups, n: nat, max: nat)
    requires max == 2 * (n - n % 3) / 3
    ensures RoomForAll(all, n) <==> forall g :: g in all ==> 2 * g.0 < max
  {
    assert n - n % 3 == 3 * (n / 3);
  }

  /** After a match: unset what was not reached, and report the match itself. */
  method Report(md: MatchData, top_bracket: nat, start_match: nat, ghost alts: Alts) returns (rc: int)
    requires md.Valid() && md.offset_end == md.offset_vector.Length - md.offset_vector.Length % 3 && md.Told()
    requires md.groups == AltsGroups(alts) && md.Answers(MATCH_MATCH, Attempts(alts, md.subject, start_match))
    modifies md.offset_vector
    ensures rc >= 0 && (md.offset_vector.Length >= 2 && !md.offset_overflow ==> rc > 0)
    ensures var offs := md.offset_vector[..];
            && (rc > 0 ==> |offs| >= 2)
            && (|offs| >= 2 ==>
                  && offs[0] == start_match && offs[1] == md.end_match_ptr
                  && Reports(offs, top_bracket, Attempts(alts, md.subject, start_match))
                  && (rc > 1 ==> rc - 1 in Attempts(alts, md.subject, start_match)[0].p.caps))
            && Captured(offs, top_bracket, md.groups, md.subject)
            && (rc > 0 ==> UnsetFrom(offs, rc, top_bracket))
  {
    TopPositive(md.offset_vector[..], md.offset_max, md.end_offset_top, Attempts(alts, md.subject, start_match)[0].p.caps);
    hide Captured, UnsetFrom, Reports, Attempts, Shows, Good, AltsGroups;
    var offsets := md.offset_vector;
    rc := if md.offset_overflow && md.end_offset_top >= md.offset_max then 0 else md.end_offset_top / 2;
    ghost var was, tries := offsets[..], Attempts(alts, md.subject, start_match);
    if md.end_offset_top / 2 <= top_bracket {
      ResetUnused(offsets, md.end_offset_top, md.offset_end, top_bracket);
    }
    if offsets.Length < 2 {
      rc := 0;
    } else {
      offsets[0], offsets[1] := start_match, md.end_match_ptr;
      AllReported(was, offsets[..], md.offset_end, md.end_offset_top, top_bracket, tries);
    }
    AllCaptured(was, offsets[..], md.offset_end, md.end_offset_top, top_bracket, md.groups, md.subject);
  }

  /** pcre_exec() on a vector of offsets. The answer does not depend on
      `optimize`: the start optimisations change nothing. */
  method PcreExec(re: Regex, s: seq<byte>, start_offset: int, anchored_option: bool, optimize: bool, offsets: array<int>,
                  ghost alts: Alts)
    returns (rc: int)
    requires Truthful(re, alts)
    modifies offsets
    ensures start_offset < 0 || start_offset > |s| <==> rc == PCRE_ERROR_BADOFFSET
    ensures rc == PCRE_ERROR_BADOFFSET || rc == Dfa.PCRE_ERROR_NOMATCH || rc >= 0
    ensures rc == Dfa.PCRE_ERROR_NOMATCH <==>
              0 <= start_offset <= |s| && NoneIn(alts, s, start_offset, if anchored_option then start_offset + 1 else |s| + 1)
    ensures rc >= 0 && offsets.Length >= 2 ==>
              && start_offset <= offsets[0] && 0 <= offsets[1]
              && AltsL(alts, s, offsets[0], offsets[1]) && NoneIn(alts, s, start_offset, offsets[0])
              && (anchored_option ==> offsets[0] == start_offset)
    ensures rc >= 0 && offsets.Length >= 2 ==> Reports(offsets[..], re.top_bracket, Attempts(alts, s, offsets[0]))
    ensures rc >= 0 ==> Captured(offsets[..], re.top_bracket, AltsGroups(alts), s)
    ensures rc >= 0 && offsets.Length >= 2 && RoomForAll(AltsGroups(alts), offsets.Length) ==> rc > 0
    ensures rc > 1 ==> offsets.Length >= 2 && rc - 1 in Attempts(alts, s, offsets[0])[0].p.caps
    ensures rc > 0 ==> UnsetFrom(offsets[..], rc, re.top_bracket)
  {
    hide AltsL, BytesTell, Paths.Program, WFAlts, Scan.AnchoredAlts, Scan.StartlineAlts, NoSelf, Captured, AltsGroups, UnsetFrom, Attempts, Reports, Shows, Good;
    if start_offset < 0 || start_offset > |s| { return PCRE_ERROR_BADOFFSET; }
    var md := new MatchData(re.code, s, offsets, AltsGroups(alts));
    var ocount := md.offset_end;
    RoomThere(AltsGroups(alts), offsets.Length, md.offset_max);
    InitSlots(offsets, ocount, re.top_bracket);
    var start_match;
    rc, start_match := BumpAlong(md, re, start_offset, anchored_option, optimize, alts);
    if rc == MATCH_MATCH {
      AltsRange(alts, s, start_match, md.end_match_ptr);
      assert MatchAt(alts, s, start_match);
      rc := Report(md, re.top_bracket, start_match, alts);
    } else {
      rc := Dfa.PCRE_ERROR_NOMATCH;
    }
  }

  /** Unset the working slots and the overall match. */
  method InitSlots(offsets: array<int>, ocount: nat, top_bracket: nat)
    requires ocount <= offsets.Length
    modifies offsets
    ensures forall x :: 2 <= x < offsets.Length ==>
              offsets[x] == if ocount - top_bracket <= x < ocount then -1 else old(offsets[x])
  {
    var iend := if ocount - top_bracket < 2 then 2 else ocount - top_bracket;
    var iptr := ocount;
    while iptr > iend
      invariant iptr <= ocount
      invariant forall x :: 2 <= x < offsets.Length ==>
                  offsets[x] == if iptr <= x < ocount && x >= iend then -1 else old(offsets[x])
    {
      iptr := iptr - 1;
      offsets[iptr] := -1;
    }
    if offsets.Length >= 2 {
      offsets[0], offsets[1] := -1, -1;
    }
  }

  /** Unset the pairs at the end of the pattern that the match did not reach. */
  method ResetUnused(offsets: array<int>, end_offset_top: nat, ocount: nat, top_bracket: nat)
    requires ocount <= offsets.Length
    modifies offsets
    ensures forall x :: 0 <= x < offsets.Length ==>
              offsets[x] == if end_offset_top <= x < (if 2 + top_bracket * 2 > offsets.Length then ocount else 2 + top_bracket * 2)
                            then -1 else old(offsets[x])
  {
    var resetcount := 2 + top_bracket * 2;
    if resetcount > offsets.Length { resetcount := ocount; }
    var iptr := end_offset_top;
    while iptr < resetcount
      invariant end_offset_top <= iptr
      invariant forall x :: 0 <= x < offsets.Length ==>
                  offsets[x] == if end_offset_top <= x < iptr && x < resetcount then -1 else old(offsets[x])
    {
      offsets[iptr] := -1;
      iptr := iptr + 1;
    }
  }
}
