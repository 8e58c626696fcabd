/** The matcher internal_dfa_exec() of pcre_dfa_exec.c: all matches from one
    start, found by following every state at once. */
module Dfa {
  import opened Opcodes
  import opened Tree
  import opened Nfa
  import opened Paths

  const PCRE_ERROR_NOMATCH := -1
  const PCRE_ERROR_DFA_WSSIZE := -19

  /** The two state lists in the workspace, for this position and the next. */
  class StateLists {
    const wscount: nat
    var active_states: array<State>
    var new_states: array<State>
    var active_count: nat
    var new_count: nat
    ghost var Repr: set<object>

    ghost predicate Valid()
      reads this, Repr
    {
      this in Repr && active_states in Repr && new_states in Repr && active_states != new_states &&
      active_states.Length == wscount == new_states.Length && active_count <= wscount && new_count <= wscount
    }

    ghost function Active(): seq<State>
      requires Valid()
      reads this, Repr
    {
      active_states[..active_count]
    }

    ghost function New(): seq<State>
      requires Valid()
      reads this, Repr
    {
      new_states[..new_count]
    }

    constructor (wscount: nat)
      ensures Valid() && fresh(Repr) && Active() == [] && New() == [] && this.wscount == wscount
    {
      this.wscount := wscount;
      active_states := new State[wscount];
      new_states := new State[wscount];
      active_count, new_count := 0, 0;
      new;
      Repr := {this, active_states, new_states};
    }

    method AddActive(offset: nat, count: nat) returns (ok: bool)
      requires Valid()
      modifies Repr
      ensures Valid() && Repr == old(Repr)
      ensures ok ==> Active() == old(Active()) + [State(offset, count)] && New() == old(New())
    {
      ok := active_count < wscount;
      if ok {
        active_states[active_count] := State(offset, count);
        active_count := active_count + 1;
      }
    }

    method AddNew(offset: nat, count: nat) returns (ok: bool)
      requires Valid()
      modifies Repr
      ensures Valid() && Repr == old(Repr)
      ensures ok ==> New() == old(New()) + [State(offset, count)] && Active() == old(Active())
    {
      ok := new_count < wscount;
      if ok {
        new_states[new_count] := State(offset, count);
        new_count := new_count + 1;
      }
    }

    /** Take back the state added last to the active list. */
    method DropActive()
      requires Valid() && active_count > 0
      modifies Repr
      ensures Valid() && Repr == old(Repr)
      ensures Active() == old(Active())[..|old(Active())| - 1] && New() == old(New())
    {
      active_count := active_count - 1;
    }

    /** Make the new list the active one and start an empty new list. */
    method Swap()
      requires Valid()
      modifies Repr
      ensures Valid() && Repr == old(Repr) && Active() == old(New()) && New() == []
    {
      active_states, new_states := new_states, active_states;
      active_count, new_count := new_count, 0;
    }

    /** Whether the state at `i` occurs earlier in the active list. */
    method IsDuplicate(i: nat) returns (found: bool)
      requires Valid() && i < active_count
      ensures found <==> Active()[i] in Active()[..i]
    {
      for j := 0 to i
        invariant active_states[i] !in active_states[..j]
      {
        if active_states[j] == active_states[i] {
          assert Active()[j] in Active()[..i];
          return true;
        }
      }
      assert Active()[..i] == active_states[..i];
      return false;
    }
  }

  /** One active state that is not the final ket. */
  method Process(lists: StateLists, code: seq<int>, s: seq<byte>, e: nat, st: State, i: nat) returns (ok: bool)
    requires lists.Valid() && i <= |s| && !(OP_KET <= Cell(code, st.offset) <= OP_KETRMIN && st.offset == e)
    modifies lists.Repr
    ensures lists.Valid() && lists.Repr == old(lists.Repr)
    ensures ok ==> lists.Active() == old(lists.Active()) + OnHere(code, s, e, st, i)
    ensures ok ==> lists.New() == old(lists.New()) + OnNext(code, s, st, i)
  {
    var p := st.offset;
    var op := Cell(code, p);
    if OP_KET <= op <= OP_KETRMIN {
      ok := lists.AddActive(p + 1 + LINK_SIZE, 0);
      if ok && op != OP_KET {
        ok := lists.AddActive(Back(p, Num(code, p + 1)), 0);
      }
    } else if op == OP_ALT {
      ok := lists.AddActive(KetFrom(code, p), 0);
    } else if op == OP_BRA || op == OP_SBRA {
      ok := AddBranches(lists, code, p, 1 + LINK_SIZE);
    } else if op == OP_CBRA || op == OP_SCBRA {
      ok := AddBranches(lists, code, p, 3 + LINK_SIZE);
    } else if op == OP_BRAZERO || op == OP_BRAMINZERO {
      ok := lists.AddActive(p + 1, 0);
      if ok {
        ok := lists.AddActive(KetFrom(code, p + 1) + 1 + LINK_SIZE, 0);
      }
    } else if IsZeroOp(op) {
      ok := true;
      if ZeroHolds(op, s, i) {
        ok := lists.AddActive(p + 1, 0);
      }
    } else if op == OP_END {
      ok := true;
    } else {
      ok := ProcessUnit(lists, UnitAt(code, p), s, st, i);
    }
  }

  lemma BranchStartsStep(code: seq<int>, p: nat, h: nat)
    ensures var q := p + Num(code, p + 1);
            BranchStarts(code, p, h) ==
            [State(p + h, 0)] +
            if q > p && p < |code| && Cell(code, q) == OP_ALT then BranchStarts(code, q, 1 + LINK_SIZE) else []
  {}

  /** The states just inside every branch. */
  method AddBranches(lists: StateLists, code: seq<int>, p: nat, h: nat) returns (ok: bool)
    requires lists.Valid()
    modifies lists.Repr
    ensures lists.Valid() && lists.Repr == old(lists.Repr)
    ensures ok ==> lists.Active() == old(lists.Active()) + BranchStarts(code, p, h) && lists.New() == old(lists.New())
  {
    hide BranchStarts;
    var pc: nat, len: nat := p, h;
    ghost var added: seq<State> := [];
    while true
      invariant lists.Valid() && lists.Repr == old(lists.Repr)
      invariant lists.Active() == old(lists.Active()) + added && lists.New() == old(lists.New())
      invariant BranchStarts(code, p, h) == added + BranchStarts(code, pc, len)
      decreases |code| - pc
    {
      ok := lists.AddActive(pc + len, 0);
      if !ok { return; }
      BranchStartsStep(code, pc, len);
      added := added + [State(pc + len, 0)];
      var q := pc + Num(code, pc + 1);
      if q <= pc || pc >= |code| || Cell(code, q) != OP_ALT { return; }
      pc, len := q, 1 + LINK_SIZE;
    }
  }

  /** An opcode that inspects the current byte. */
  method ProcessUnit(lists: StateLists, u: Unit, s: seq<byte>, st: State, i: nat) returns (ok: bool)
    requires lists.Valid() && WFSingle(u.x)
    modifies lists.Repr
    ensures lists.Valid() && lists.Repr == old(lists.Repr)
    ensures ok ==> lists.Active() == old(lists.Active()) + UnitHere(u, st, i < |s| && Hit(u.x, s[i]))
    ensures ok ==> lists.New() == old(lists.New()) + if i < |s| && Hit(u.x, s[i]) then [UnitNext(u, st)] else []
  {
    hide Hit;
    var exit := st.offset + u.size;
    var count := st.count;
    var optional := u.repeat && (u.kind.Star? || u.kind.PosStar? || u.kind.Query? || u.kind.PosQuery? ||
                                 u.kind.Upto? || u.kind.PosUpto? ||
                                 ((u.kind.Plus? || u.kind.PosPlus?) && count > 0) || (u.kind.Range? && count >= u.kind.lo));
    ok := true;
    if optional {
      ok := lists.AddActive(exit, 0);
    }
    if ok && i < |s| && Hit(u.x, s[i]) {
      if optional && (u.kind.PosStar? || u.kind.PosPlus? || u.kind.PosQuery? || u.kind.PosUpto?) {
        lists.DropActive();
      }
      count := count + 1;
      if !u.repeat || u.kind.Query? || u.kind.PosQuery? ||
         ((u.kind.Upto? || u.kind.PosUpto? || u.kind.Exact?) && count >= u.kind.n) ||
         (u.kind.Range? && count >= u.kind.hi && u.kind.hi != 0) {
        ok := lists.AddNew(exit, 0);
      } else if u.kind.Star? || u.kind.PosStar? {
        ok := lists.AddNew(st.offset, 0);
      } else {
        ok := lists.AddNew(st.offset, count);
      }
    }
  }

  // ---- The record of matches ----

  /** The ends found so far, the longest first, with the return code. */
  ghost predicate Recorded(offs: seq<int>, start: nat, ends: seq<nat>, rc: int) {
    var room := |offs| / 2;
    && rc == (if ends == [] then PCRE_ERROR_NOMATCH else if |ends| <= room then |ends| else 0)
    && forall k :: 0 <= k < |ends| && k < room ==> offs[2 * k] == start && offs[2 * k + 1] == ends[|ends| - 1 - k]
  }

  /** Move the first `count` offsets up by one pair. */
  method ShiftUp(offsets: array<int>, count: nat)
    requires count > 0 ==> count + 2 <= offsets.Length
    modifies offsets
    ensures forall y :: 0 <= y < count ==> offsets[y + 2] == old(offsets[y])
  {
    var x := count;
    while x > 0
      invariant 0 <= x <= count
      invariant forall y :: 0 <= y < x ==> offsets[y] == old(offsets[y])
      invariant forall y :: x <= y < count ==> offsets[y + 2] == old(offsets[y])
    {
      x := x - 1;
      offsets[x + 2] := offsets[x];
    }
  }

  lemma RecordedMore(was: seq<int>, now: seq<int>, start: nat, ends: seq<nat>, rc: int, ptr: nat, count: nat, rc': int)
    requires Recorded(was, start, ends, rc) && |was| == |now|
    requires rc' == if ends == [] then (if |was| >= 2 then 1 else 0) else if |ends| + 1 <= |was| / 2 then |ends| + 1 else 0
    requires count >= (if |ends| + 1 <= |was| / 2 then 2 * |ends| else 2 * (|was| / 2) - 2)
    requires forall y :: 0 <= y < count && y + 2 < |was| ==> now[y + 2] == was[y]
    requires |was| >= 2 ==> now[0] == start && now[1] == ptr
    ensures Recorded(now, start, ends + [ptr], rc')
  {
    var all := ends + [ptr];
    forall k | 0 <= k < |all| && k < |now| / 2
      ensures now[2 * k] == start && now[2 * k + 1] == all[|all| - 1 - k]
    {
      if k > 0 {
        assert was[2 * (k - 1)] == start && was[2 * (k - 1) + 1] == ends[|ends| - 1 - (k - 1)];
        assert now[2 * (k - 1) + 2] == was[2 * (k - 1)];
        assert now[2 * (k - 1) + 1 + 2] == was[2 * (k - 1) + 1];
      }
    }
  }

  /** Put the match that ends at `ptr` in front of the shorter ones. */
  method Record(offsets: array<int>, start: nat, ptr: nat, rc: int, ghost ends: seq<nat>) returns (match_count: int)
    requires Recorded(offsets[..], start, ends, rc)
    modifies offsets
    ensures Recorded(offsets[..], start, ends + [ptr], match_count)
  {
    RecordedRoom(offsets[..], start, ends, rc);
    hide Recorded;
    ghost var was := offsets[..];
    var offsetcount := offsets.Length - offsets.Length % 2;
    match_count := rc;
    if match_count < 0 {
      match_count := if offsetcount >= 2 then 1 else 0;
    } else if match_count > 0 {
      match_count := match_count + 1;
      if match_count * 2 > offsetcount { match_count := 0; }
    }
    var count := (if match_count == 0 then offsetcount else match_count * 2) - 2;
    if count > 0 { ShiftUp(offsets, count); }
    if offsetcount >= 2 {
      offsets[0], offsets[1] := start, ptr;
    }
    RecordedMore(was, offsets[..], start, ends, rc, ptr, if count < 0 then 0 else count, match_count);
  }

  lemma RecordedRoom(offs: seq<int>, start: nat, ends: seq<nat>, rc: int)
    requires Recorded(offs, start, ends, rc)
    ensures rc == if ends == [] then PCRE_ERROR_NOMATCH else if |ends| <= |offs| / 2 then |ends| else 0
  {}

  // ---- Following every state at once ----

  ghost predicate Reached(code: seq<int>, s: seq<byte>, e: nat, start: Conf, x: Conf) {
    exists n: nat :: Path(code, s, e, n, start, x)
  }

  lemma ReachMore(code: seq<int>, s: seq<byte>, e: nat, start: Conf, x: Conf, y: Conf)
    requires Reached(code, s, e, start, x) && Step(code, s, e, x, y)
    ensures Reached(code, s, e, start, y)
  {
    hide Step;
    var n: nat :| Path(code, s, e, n, start, x);
    PathOne(code, s, e, x, y);
    PathJoin(code, s, e, n, 1, start, x, y);
  }

  /** Every step out of `seen` leads into `seen`, to a state of `here` at
      position `p`, or to a state of `next` at the position after. */
  ghost predicate Closed(code: seq<int>, s: seq<byte>, e: nat, seen: set<Conf>, here: seq<State>, next: seq<State>, p: nat) {
    forall x, y :: x in seen && Step(code, s, e, x, y) ==>
      y in seen || (y.i == p && y.st in here) || (y.i == p + 1 && y.st in next)
  }

  /** All states of a list are reached at position `p`, the final ket with count 0. */
  ghost predicate AllReached(code: seq<int>, s: seq<byte>, e: nat, start: Conf, list: seq<State>, p: nat) {
    forall st :: st in list ==> Reached(code, s, e, start, Conf(st, p)) && (st.offset == e ==> st.count == 0)
  }

  lemma {:induction false} ClosedHoldsAll(code: seq<int>, s: seq<byte>, e: nat, seen: set<Conf>, p: nat, n: nat, x: Conf, y: Conf)
    requires Closed(code, s, e, seen, [], [], p) && x in seen && Path(code, s, e, n, x, y)
    ensures y in seen
    decreases n
  {
    hide Step;
    if n > 0 {
      var z :| Step(code, s, e, x, z) && Path(code, s, e, n - 1, z, y);
      ClosedHoldsAll(code, s, e, seen, p, n - 1, z, y);
    }
  }

  /** What has been seen lies before `p`, apart from the start itself. */
  ghost predicate SeenBefore(code: seq<int>, s: seq<byte>, e: nat, start: nat, seen: set<Conf>, p: nat) {
    Conf(State(0, 0), start) in seen &&
    forall x :: x in seen ==>
      Reached(code, s, e, Conf(State(0, 0), start), x) && (x.i < p || x.st == State(0, 0))
  }

  /** The ends are the positions at which the final ket was seen. */
  ghost predicate EndsSeen(e: nat, seen: set<Conf>, ends: seq<nat>) {
    forall j: nat :: j in ends <==> Conf(State(e, 0), j) in seen
  }

  ghost predicate EndsBelow(ends: seq<nat>, p: nat) {
    (forall a :: 0 <= a < |ends| ==> ends[a] < p) && forall a, b :: 0 <= a < b < |ends| ==> ends[a] < ends[b]
  }

  /** Part of the way through the active list `here` of position `p`: the first
      `i` states are done. */
  ghost predicate Scanning(code: seq<int>, s: seq<byte>, e: nat, start: nat, p: nat, here: seq<State>, next: seq<State>,
                           i: nat, seen0: set<Conf>, seen: set<Conf>, ends0: seq<nat>, ends: seq<nat>) {
    && i <= |here| && seen0 <= seen && SeenBefore(code, s, e, start, seen0, p) && EndsBelow(ends0, p)
    && AllReached(code, s, e, Conf(State(0, 0), start), here, p)
    && AllReached(code, s, e, Conf(State(0, 0), start), next, p + 1)
    && Closed(code, s, e, seen, here, next, p)
    && (forall x :: x in seen ==> x in seen0 || (x.i == p && x.st in here[..i]))
    && (forall k :: 0 <= k < i ==> Conf(here[k], p) in seen)
    && EndsSeen(e, seen, ends)
    && (ends == ends0 || (ends == ends0 + [p] && State(e, 0) in here[..i]))
    && (next != [] ==> p < |s|)
  }

  lemma ScanStart(code: seq<int>, s: seq<byte>, e: nat, start: nat, p: nat, here: seq<State>, seen0: set<Conf>, ends0: seq<nat>)
    requires AllReached(code, s, e, Conf(State(0, 0), start), here, p) && Closed(code, s, e, seen0, here, [], p)
    requires SeenBefore(code, s, e, start, seen0, p) && EndsSeen(e, seen0, ends0) && EndsBelow(ends0, p)
    ensures Scanning(code, s, e, start, p, here, [], 0, seen0, seen0, ends0, ends0)
  {
    hide Step;
  }

  lemma ScanDone(code: seq<int>, s: seq<byte>, e: nat, start: nat, p: nat, here: seq<State>, next: seq<State>,
                 seen0: set<Conf>, seen: set<Conf>, ends0: seq<nat>, ends: seq<nat>)
    requires Scanning(code, s, e, start, p, here, next, |here|, seen0, seen, ends0, ends)
    ensures AllReached(code, s, e, Conf(State(0, 0), start), next, p + 1)
    ensures Closed(code, s, e, seen, next, [], p + 1)
    ensures SeenBefore(code, s, e, start, seen, p + 1) && EndsSeen(e, seen, ends) && EndsBelow(ends, p + 1)
    ensures next != [] ==> p < |s|
  {
    hide Step, Reached;
    assert here[..|here|] == here;
    forall x | x in seen ensures Reached(code, s, e, Conf(State(0, 0), start), x) && (x.i < p + 1 || x.st == State(0, 0)) {
      if x !in seen0 {
        assert x == Conf(x.st, p) && x.st in here;
      }
    }
    assert SeenBefore(code, s, e, start, seen, p + 1);
    assert EndsBelow(ends, p + 1);
  }

  lemma ScanDuplicate(code: seq<int>, s: seq<byte>, e: nat, start: nat, p: nat, here: seq<State>, next: seq<State>,
                      i: nat, seen0: set<Conf>, seen: set<Conf>, ends0: seq<nat>, ends: seq<nat>)
    requires Scanning(code, s, e, start, p, here, next, i, seen0, seen, ends0, ends)
    requires i < |here| && here[i] in here[..i]
    ensures Scanning(code, s, e, start, p, here, next, i + 1, seen0, seen, ends0, ends)
  {
    hide Step, AllReached, Closed, EndsSeen, EndsBelow, SeenBefore;
    assert here[..i + 1] == here[..i] + [here[i]];
  }

  /** A state off the final ket: what it adds has been reached. */
  lemma AddedReached(code: seq<int>, s: seq<byte>, e: nat, start: Conf, st: State, p: nat, here: seq<State>, next: seq<State>)
    requires OP_KET <= Cell(code, e) <= OP_KETRMIN && Reached(code, s, e, start, Conf(st, p))
    requires AllReached(code, s, e, start, here, p) && AllReached(code, s, e, start, next, p + 1)
    ensures AllReached(code, s, e, start, here + OnHere(code, s, e, st, p), p)
    ensures AllReached(code, s, e, start, next + OnNext(code, s, st, p), p + 1)
  {
    var added := OnHere(code, s, e, st, p);
    forall y | y in added ensures Reached(code, s, e, start, Conf(y, p)) && (y.offset == e ==> y.count == 0) {
      ReachMore(code, s, e, start, Conf(st, p), Conf(y, p));
      CountZeroHere(code, s, e, st, p, y);
    }
    var added' := OnNext(code, s, st, p);
    forall y | y in added' ensures Reached(code, s, e, start, Conf(y, p + 1)) && (y.offset == e ==> y.count == 0) {
      ReachMore(code, s, e, start, Conf(st, p), Conf(y, p + 1));
      CountZeroNext(code, s, st, p, y, e);
    }
  }

  lemma CountZeroHere(code: seq<int>, s: seq<byte>, e: nat, st: State, p: nat, y: State)
    requires y in OnHere(code, s, e, st, p)
    ensures y.count == 0
  {
    hide UnitAt, KetFrom;
    if IsUnitOp(Cell(code, st.offset)) {
      hide BranchStarts;
    } else {
      BranchCountsZero(code, st.offset, 1 + LINK_SIZE, y);
      BranchCountsZero(code, st.offset, 3 + LINK_SIZE, y);
    }
  }

  lemma {:induction false} BranchCountsZero(code: seq<int>, p: nat, h: nat, y: State)
    ensures y in BranchStarts(code, p, h) ==> y.count == 0
    decreases |code| - p
  {
    var q := p + Num(code, p + 1);
    if q > p && p < |code| && Cell(code, q) == OP_ALT {
      BranchCountsZero(code, q, 1 + LINK_SIZE, y);
    }
  }

  lemma CountZeroNext(code: seq<int>, s: seq<byte>, st: State, p: nat, y: State, e: nat)
    requires y in OnNext(code, s, st, p) && OP_KET <= Cell(code, e) <= OP_KETRMIN
    ensures y.offset == e ==> y.count == 0
  {
    hide UnitAt;
  }

  lemma ScanProcess(code: seq<int>, s: seq<byte>, e: nat, start: nat, p: nat, here: seq<State>, next: seq<State>,
                    i: nat, seen0: set<Conf>, seen: set<Conf>, ends0: seq<nat>, ends: seq<nat>)
    requires Scanning(code, s, e, start, p, here, next, i, seen0, seen, ends0, ends)
    requires i < |here| && here[i].offset != e && OP_KET <= Cell(code, e) <= OP_KETRMIN
    ensures Scanning(code, s, e, start, p, here + OnHere(code, s, e, here[i], p), next + OnNext(code, s, here[i], p),
                     i + 1, seen0, seen + {Conf(here[i], p)}, ends0, ends)
  {
    hide OnHere, OnNext, Reached, EndsBelow, SeenBefore;
    var here' := here + OnHere(code, s, e, here[i], p);
    assert here'[..i + 1] == here[..i] + [here[i]];
    AddedReached(code, s, e, Conf(State(0, 0), start), here[i], p, here, next);
    hide AllReached;
    assert OnNext(code, s, here[i], p) != [] ==> p < |s| by { NextInside(code, s, here[i], p); }
  }

  lemma NextInside(code: seq<int>, s: seq<byte>, st: State, p: nat)
    ensures OnNext(code, s, st, p) != [] ==> p < |s|
  {}

  lemma ScanFinal(code: seq<int>, s: seq<byte>, e: nat, start: nat, p: nat, here: seq<State>, next: seq<State>,
                  i: nat, seen0: set<Conf>, seen: set<Conf>, ends0: seq<nat>, ends: seq<nat>)
    requires Scanning(code, s, e, start, p, here, next, i, seen0, seen, ends0, ends)
    requires i < |here| && here[i].offset == e > 0 && here[i] !in here[..i] && OP_KET <= Cell(code, e) <= OP_KETRMIN
    ensures Scanning(code, s, e, start, p, here, next, i + 1, seen0, seen + {Conf(here[i], p)}, ends0, ends + [p])
  {
    hide Reached, UnitAt, KetFrom, BranchStarts;
    assert here[..i + 1] == here[..i] + [here[i]];
    assert here[i] == State(e, 0);
    assert Conf(State(e, 0), p) !in seen;
  }

  /** The active states of one position, in order, each once. */
  method ScanActive(lists: StateLists, code: seq<int>, s: seq<byte>, e: nat, start: nat, ptr: nat, rc: int, offsets: array<int>,
                    ghost seen0: set<Conf>, ghost ends0: seq<nat>)
    returns (ok: bool, match_count: int, ghost seen: set<Conf>, ghost ends: seq<nat>)
    requires lists.Valid() && lists.New() == [] && ptr <= |s| && offsets !in lists.Repr
    requires OP_KET <= Cell(code, e) <= OP_KETRMIN && e > 0
    requires Scanning(code, s, e, start, ptr, lists.Active(), [], 0, seen0, seen0, ends0, ends0)
    requires Recorded(offsets[..], start, ends0, rc)
    modifies lists.Repr, offsets
    ensures lists.Valid() && lists.Repr == old(lists.Repr)
    ensures ok ==> Scanning(code, s, e, start, ptr, lists.Active(), lists.New(), |lists.Active()|, seen0, seen, ends0, ends)
    ensures ok ==> Recorded(offsets[..], start, ends, match_count)
  {
    hide Scanning, Recorded, OnHere, OnNext;
    ok, match_count, seen, ends := true, rc, seen0, ends0;
    var i := 0;
    while i < lists.active_count
      invariant lists.Valid() && lists.Repr == old(lists.Repr) && i <= lists.active_count
      invariant Scanning(code, s, e, start, ptr, lists.Active(), lists.New(), i, seen0, seen, ends0, ends)
      invariant Recorded(offsets[..], start, ends, match_count)
      decreases lists.wscount - i
    {
      var st := lists.active_states[i];
      ghost var here, next := lists.Active(), lists.New();
      assert st == here[i];
      var duplicate := lists.IsDuplicate(i);
      if duplicate {
        ScanDuplicate(code, s, e, start, ptr, here, next, i, seen0, seen, ends0, ends);
      } else if st.offset == e {
        ScanFinal(code, s, e, start, ptr, here, next, i, seen0, seen, ends0, ends);
        match_count := Record(offsets, start, ptr, match_count, ends);
        seen, ends := seen + {Conf(st, ptr)}, ends + [ptr];
      } else {
        ScanProcess(code, s, e, start, ptr, here, next, i, seen0, seen, ends0, ends);
        ok := Process(lists, code, s, e, st, ptr);
        if !ok { return; }
        seen := seen + {Conf(st, ptr)};
      }
      i := i + 1;
    }
  }

  /** The states pushed before the first byte: one for each top-level branch. */
  method PushStart(lists: StateLists, code: seq<int>) returns (ok: bool, e: nat)
    requires lists.Valid() && lists.New() == []
    modifies lists.Repr
    ensures lists.Valid() && lists.Repr == old(lists.Repr)
    ensures e == KetFrom(code, 0)
    ensures ok ==> lists.New() == BranchStarts(code, 0, 1 + LINK_SIZE)
  {
    hide BranchStarts;
    var len: nat := 1 + LINK_SIZE;
    e, ok := 0, true;
    ghost var added: seq<State> := [];
    while true
      invariant lists.Valid() && lists.Repr == old(lists.Repr)
      invariant ok ==> lists.New() == added && BranchStarts(code, 0, 1 + LINK_SIZE) == added + BranchStarts(code, e, len)
      invariant KetFrom(code, 0) == KetFrom(code, e)
      decreases |code| - e
    {
      if ok {
        ok := lists.AddNew(e + len, 0);
      }
      BranchStartsStep(code, e, len);
      added := added + [State(e + len, 0)];
      var q := e + Num(code, e + 1);
      if q <= e || e >= |code| || Cell(code, q) != OP_ALT {
        e := q;
        return;
      }
      e, len := q, 1 + LINK_SIZE;
    }
  }

  /** All matches of a compiled pattern that start at `start`. `ends` lists
      their ends in increasing order; `Recorded` says how they are reported. */
  method InternalDfaExec(code: seq<int>, s: seq<byte>, start: nat, offsets: array<int>, wscount: nat, ghost alts: Alts)
    returns (rc: int, ghost ends: seq<nat>)
    requires Program(code, alts) && start <= |s|
    modifies offsets
    ensures rc != PCRE_ERROR_DFA_WSSIZE ==> Recorded(offsets[..], start, ends, rc)
    ensures rc != PCRE_ERROR_DFA_WSSIZE ==> forall a, b :: 0 <= a < b < |ends| ==> ends[a] < ends[b]
    ensures rc != PCRE_ERROR_DFA_WSSIZE ==> forall j: nat :: j in ends <==> AltsL(alts, s, start, j)
  {
    hide Program, Scanning, Recorded, AllReached, Closed, SeenBefore, EndsSeen, AltsL, BranchStarts, KetFrom;
    var lists := new StateLists(wscount);
    var ok, e := PushStart(lists, code);
    if !ok { return PCRE_ERROR_DFA_WSSIZE, []; }
    ghost var seen := {Conf(State(0, 0), start)};
    DfaStart(code, alts, s, start);
    ends, rc := [], PCRE_ERROR_NOMATCH;
    NothingRecorded(offsets[..], start);
    var ptr := start;
    while true
      invariant lists.Valid() && fresh(lists.Repr) && ptr <= |s|
      invariant AllReached(code, s, e, Conf(State(0, 0), start), lists.New(), ptr)
      invariant Closed(code, s, e, seen, lists.New(), [], ptr)
      invariant SeenBefore(code, s, e, start, seen, ptr) && EndsSeen(e, seen, ends) && EndsBelow(ends, ptr)
      invariant Recorded(offsets[..], start, ends, rc)
      decreases |s| - ptr
    {
      lists.Swap();
      ghost var seen0, ends0, here := seen, ends, lists.Active();
      ScanStart(code, s, e, start, ptr, here, seen0, ends0);
      ok, rc, seen, ends := ScanActive(lists, code, s, e, start, ptr, rc, offsets, seen0, ends0);
      if !ok { return PCRE_ERROR_DFA_WSSIZE, []; }
      ScanDone(code, s, e, start, ptr, lists.Active(), lists.New(), seen0, seen, ends0, ends);
      if lists.new_count <= 0 { break; }
      ptr := ptr + 1;
    }
    DfaEnd(code, alts, s, e, start, seen, ends, ptr + 1);
  }

  lemma NothingRecorded(offs: seq<int>, start: nat)
    ensures Recorded(offs, start, [], PCRE_ERROR_NOMATCH)
  {}

  lemma DfaStart(code: seq<int>, alts: Alts, s: seq<byte>, start: nat)
    requires Program(code, alts) && start <= |s|
    ensures var e := KetFrom(code, 0); var seen := {Conf(State(0, 0), start)};
            && e == AltsSize(1 + LINK_SIZE, alts) && OP_KET <= Cell(code, e) <= OP_KETRMIN
            && AllReached(code, s, e, Conf(State(0, 0), start), BranchStarts(code, 0, 1 + LINK_SIZE), start)
            && Closed(code, s, e, seen, BranchStarts(code, 0, 1 + LINK_SIZE), [], start)
            && SeenBefore(code, s, e, start, seen, start) && EndsSeen(e, seen, []) && EndsBelow([], start)
  {
    hide BranchStarts, KetFrom, UnitAt, ItemAt, AltsAt, AltsSize, WFAlts, ItemSize, OnHere, OnNext;
    var root := Bra(0, alts, Once);
    var e := AltsSize(1 + LINK_SIZE, alts);
    var x := Conf(State(0, 0), start);
    BraFacts(code, 0, root);
    LinksShow(code, 0, 1 + LINK_SIZE, alts);
    PathSelf(code, s, e, x);
    assert Reached(code, s, e, x, x);
    EnterStep(code, s, e, 0, root, State(0, 0), start);
    forall st | st in BranchStarts(code, 0, 1 + LINK_SIZE)
      ensures Reached(code, s, e, x, Conf(st, start)) && (st.offset == e ==> st.count == 0)
    {
      EnterStep(code, s, e, 0, root, st, start);
      ReachMore(code, s, e, x, x, Conf(st, start));
      BranchCountsZero(code, 0, 1 + LINK_SIZE, st);
    }
  }

  lemma DfaEnd(code: seq<int>, alts: Alts, s: seq<byte>, e: nat, start: nat, seen: set<Conf>, ends: seq<nat>, p: nat)
    requires Program(code, alts) && start <= |s| && e == AltsSize(1 + LINK_SIZE, alts)
    requires Closed(code, s, e, seen, [], [], p) && SeenBefore(code, s, e, start, seen, p) && EndsSeen(e, seen, ends)
    ensures forall j: nat :: j in ends <==> AltsL(alts, s, start, j)
  {
    hide Program, Step, Path, AltsL, AltsSize, Closed;
    forall j: nat ensures j in ends <==> AltsL(alts, s, start, j) {
      PathsAreMatches(code, alts, s, start, j);
      var x, y := Conf(State(0, 0), start), Conf(State(e, 0), j);
      if Accepts(code, s, e, start, j) {
        var n: nat :| Path(code, s, e, n, x, y);
        ClosedHoldsAll(code, s, e, seen, p, n, x, y);
      }
      if y in seen {
        assert Reached(code, s, e, x, y);
        var n: nat :| Path(code, s, e, n, x, y);
        assert Accepts(code, s, e, start, j);
      }
    }
  }
}
