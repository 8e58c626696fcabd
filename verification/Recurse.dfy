/** adjust_recurse(): what must be put right when a group with subroutine calls
    in it is moved up, and when that goes wrong. */
module Recurse {
  import opened Opcodes
  import opened Layout
  import opened Emit

  const OP_RECURSE := 111

  const OP_NOTPROP := 15
  const OP_PROP := 16
  const OP_XCLASS := 108
  const OP_CALLOUT := 112
  const OP_DEF := 139
  const OP_MARK := 143
  const OP_PRUNE_ARG := 145
  const OP_SKIP_ARG := 147
  const OP_THEN_ARG := 149
  const OP_CLOSE := 154

  /** The lengths in a family of repeats: six pairs, UPTO and EXACT with a count,
      then the possessive forms. */
  function RepeatLength(k: nat): nat {
    if k < 6 then 2 else if k < 9 then 4 else if k < 12 then 2 else 4
  }

  /** The table of opcode lengths; XCLASS holds its own length. */
  function OpLength(op: int): nat {
    if op == OP_NOTPROP || op == OP_PROP then 3
    else if OP_CHAR <= op < OP_STAR then 2
    else if OP_STAR <= op <= OP_TYPEPOSUPTO then RepeatLength((op - OP_STAR) % 13)
    else if op == OP_CRRANGE || op == OP_CRMINRANGE then 5
    else if op == OP_CLASS || op == OP_CLASS + 1 then 33
    else if op == OP_XCLASS then 0
    else if op == OP_CALLOUT then 2 + 2 * LINK_SIZE
    else if op == OP_CBRA || op == OP_CBRAPOS || op == OP_SCBRA || op == OP_SCBRAPOS then 3 + LINK_SIZE
    else if OP_XCLASS < op < OP_DEF then 1 + LINK_SIZE
    else if op == OP_MARK || op == OP_PRUNE_ARG || op == OP_SKIP_ARG || op == OP_THEN_ARG || op == OP_CLOSE then 3
    else 1
  }

  /** \p or \P at `q` has two more cells. */
  function PropCells(c: seq<int>, q: nat): nat {
    if q < |c| && (c[q] == OP_PROP || c[q] == OP_NOTPROP) then 2 else 0
  }

  /** From one opcode to the next. */
  function Step(c: seq<int>, p: nat): int
    requires p < |c|
  {
    var op := c[p];
    if op == OP_XCLASS then if p + 2 < |c| then Get(c, p + 1) else 0
    else if OP_TYPESTAR <= op < OP_TYPEUPTO || OP_TYPEPOSSTAR <= op <= OP_TYPEPOSQUERY then 2 + PropCells(c, p + 1)
    else if OP_TYPEUPTO <= op <= OP_TYPEEXACT || op == OP_TYPEPOSUPTO then 4 + PropCells(c, p + 3)
    else if (op == OP_MARK || op == OP_PRUNE_ARG || op == OP_SKIP_ARG || op == OP_THEN_ARG) && p + 1 < |c| then c[p + 1] + OpLength(op)
    else OpLength(op)
  }

  /** From `p`, opcode by opcode, to the end marker at `e`. */
  predicate OpsTo(c: seq<int>, p: nat, e: nat)
    decreases e - p
  {
    if p >= e then p == e < |c| && c[e] == OP_END
    else p < |c| && c[p] != OP_END && Step(c, p) > 0 && OpsTo(c, p + Step(c, p), e)
  }

  /** Where the calls are. */
  function Calls(c: seq<int>, p: nat, e: nat): seq<nat>
    requires OpsTo(c, p, e)
    decreases e - p
  {
    if p >= e then []
    else (if c[p] == OP_RECURSE then [p] else []) + Calls(c, p + Step(c, p), e)
  }

  lemma {:induction false} OpsInside(c: seq<int>, p: nat, e: nat)
    requires OpsTo(c, p, e)
    ensures p <= e < |c|
    decreases e - p
  {
    if p < e { OpsInside(c, p + Step(c, p), e); }
  }

  /** A change before `p` does not matter. */
  lemma {:induction false} CallsKept(c: seq<int>, c': seq<int>, p: nat, e: nat)
    requires OpsTo(c, p, e) && |c| == |c'| && forall y :: p <= y < |c| ==> c'[y] == c[y]
    ensures OpsTo(c', p, e) && Calls(c', p, e) == Calls(c, p, e)
    decreases e - p
  {
    if p < e { CallsKept(c, c', p + Step(c, p), e); }
  }

  predicate Rising(xs: seq<nat>) {
    forall i, j :: 0 <= i < j < |xs| ==> xs[i] + 1 + LINK_SIZE <= xs[j]
  }

  /** Calls do not overlap. */
  lemma {:induction false} CallsRise(c: seq<int>, p: nat, e: nat)
    requires OpsTo(c, p, e)
    ensures Rising(Calls(c, p, e))
    ensures forall x :: x in Calls(c, p, e) ==> p <= x && x + 3 <= e < |c| && c[x] == OP_RECURSE
    decreases e - p
  {
    if p < e {
      var q := p + Step(c, p);
      CallsRise(c, q, e);
      OpsInside(c, q, e);
      var a, b := Calls(c, p, e), Calls(c, q, e);
      if c[p] == OP_RECURSE {
        forall i, j | 0 <= i < j < |a| ensures a[i] + 3 <= a[j] {
          assert a[j] == b[j - 1] && b[j - 1] in b;
          if i > 0 { assert a[i] == b[i - 1]; }
        }
      } else {
        assert a == b;
      }
    }
  }

  // ---- What the loop does ----

  /** The code, and the list of link fields that still hold a group number. */
  datatype State = State(code: seq<int>, hwm: seq<nat>)

  function IndexOf(h: seq<nat>, v: nat): (i: int)
    ensures -1 <= i < |h| && (i >= 0 ==> h[i] == v) && (i >= 0 <==> v in h)
  {
    if h == [] then -1
    else if h[0] == v then 0
    else var i := IndexOf(h[1..], v); if i < 0 then -1 else i + 1
  }

  /** One call: move its entry in the list if it seems to have one, else its
      target if that lies in the group. */
  function Adjusted(st: State, x: nat, group: nat, d: nat): (r: State)
    requires x + 2 < |st.code|
    ensures |r.code| == |st.code| && |r.hwm| == |st.hwm|
  {
    var i := IndexOf(st.hwm, x + 1);
    if i >= 0 then st.(hwm := st.hwm[i := x + 1 + d])
    else
      var t := Get(st.code, x + 1);
      if t >= group then st.(code := st.code[x + 1 := (t + d) / 256][x + 2 := (t + d) % 256]) else st
  }

  function Run(st: State, calls: seq<nat>, group: nat, d: nat): (r: State)
    requires forall x :: x in calls ==> x + 2 < |st.code|
    ensures |r.code| == |st.code| && |r.hwm| == |st.hwm|
    decreases |calls|
  {
    if calls == [] then st
    else
      assert calls[0] in calls && forall x :: x in calls[1..] ==> x in calls;
      Run(Adjusted(st, calls[0], group, d), calls[1..], group, d)
  }

  lemma CallsNext(c: seq<int>, p: nat, e: nat)
    requires OpsTo(c, p, e) && p < |c|
    ensures c[p] == OP_END ==> Calls(c, p, e) == []
    ensures c[p] != OP_END ==>
              var q := p + Step(c, p);
              p < e && p < q && OpsTo(c, q, e) && Calls(c, p, e) == if c[p] == OP_RECURSE then [p] + Calls(c, q, e) else Calls(c, q, e)
  {
    if p < e { assert [] + Calls(c, p + Step(c, p), e) == Calls(c, p + Step(c, p), e); }
  }

  /** find_recurse() */
  method FindRecurse(code: array<int>, start: nat, ghost e: nat) returns (found: bool, x: nat)
    requires OpsTo(code[..], start, e)
    ensures found <==> Calls(code[..], start, e) != []
    ensures found ==> start <= x && x + 3 <= e < code.Length && code[x] == OP_RECURSE && OpsTo(code[..], x + 3, e) &&
                      Calls(code[..], start, e) == [x] + Calls(code[..], x + 3, e)
  {
    hide OpsTo, Calls;
    x := start;
    while true
      invariant start <= x && OpsTo(code[..], x, e) && Calls(code[..], x, e) == Calls(code[..], start, e)
      decreases e - x
    {
      OpsInside(code[..], x, e);
      CallsNext(code[..], x, e);
      if code[x] == OP_END { return false, 0; }
      if code[x] == OP_RECURSE {
        OpsInside(code[..], x + 3, e);
        return true, x;
      }
      x := x + Step(code[..], x);
    }
  }

  lemma RunFirst(st: State, x: nat, calls: seq<nat>, group: nat, d: nat)
    requires forall y :: y in [x] + calls ==> y + 2 < |st.code|
    ensures x + 2 < |st.code| && forall y :: y in calls ==> y + 2 < |st.code|
    ensures Run(st, [x] + calls, group, d) == Run(Adjusted(st, x, group, d), calls, group, d)
  {
    var all := [x] + calls;
    assert x in all && all[1..] == calls;
    forall y | y in calls ensures y + 2 < |st.code| { assert y in all; }
  }

  /** adjust_recurse() on the group from `group` to the end marker at `e`. */
  method AdjustRecurse(code: array<int>, hwm: array<nat>, group: nat, d: nat, ghost e: nat)
    requires OpsTo(code[..], group, e) && forall x :: x in Calls(code[..], group, e) ==> x + 2 < code.Length
    modifies code, hwm
    ensures code[..] == Run(State(old(code[..]), old(hwm[..])), old(Calls(code[..], group, e)), group, d).code
    ensures hwm[..] == Run(State(old(code[..]), old(hwm[..])), old(Calls(code[..], group, e)), group, d).hwm
  {
    hide OpsTo, Calls, Run, Adjusted, Step;
    ghost var goal := Run(State(code[..], hwm[..]), Calls(code[..], group, e), group, d);
    var ptr := group;
    while true
      invariant OpsTo(code[..], ptr, e) && forall x :: x in Calls(code[..], ptr, e) ==> x + 2 < code.Length
      invariant Run(State(code[..], hwm[..]), Calls(code[..], ptr, e), group, d) == goal
      decreases e - ptr
    {
      var found, x := FindRecurse(code, ptr, e);
      ghost var was, st, later := code[..], State(code[..], hwm[..]), if found then Calls(code[..], x + 3, e) else [];
      if !found {
        RunNone(st, group, d);
        return;
      }
      RunFirst(st, x, later, group, d);
      AdjustOne(code, hwm, x, group, d);
      CallsKept(was, code[..], x + 3, e);
      ptr := x + 1 + LINK_SIZE;
    }
  }

  lemma RunNone(st: State, group: nat, d: nat)
    ensures Run(st, [], group, d) == st
  {}

  method AdjustOne(code: array<int>, hwm: array<nat>, x: nat, group: nat, d: nat)
    requires x + 2 < code.Length
    modifies code, hwm
    ensures code[..] == Adjusted(State(old(code[..]), old(hwm[..])), x, group, d).code
    ensures hwm[..] == Adjusted(State(old(code[..]), old(hwm[..])), x, group, d).hwm
    ensures forall y :: x + 3 <= y < code.Length ==> code[y] == old(code[y])
  {
    hide IndexOf;
    var hc := FindEntry(hwm, x + 1);
    if hc < hwm.Length {
      hwm[hc] := x + 1 + d;
    } else {
      var offset := Get(code[..], x + 1);
      if offset >= group { PutLink(code, x + 1, offset + d); }
    }
  }

  method PutLink(code: array<int>, p: nat, v: int)
    requires p + 1 < code.Length
    modifies code
    ensures code[..] == old(code[..])[p := v / 256][p + 1 := v % 256]
  {
    code[p], code[p + 1] := v / 256, v % 256;
  }

  /** The first entry with this value. */
  method FindEntry(hwm: array<nat>, v: nat) returns (hc: nat)
    ensures if IndexOf(hwm[..], v) >= 0 then hc == IndexOf(hwm[..], v) else hc == hwm.Length
  {
    hc := 0;
    assert hwm[0..] == hwm[..];
    while hc < hwm.Length
      invariant hc <= hwm.Length
      invariant IndexOf(hwm[..], v) == var i := IndexOf(hwm[hc..], v); if i < 0 then -1 else hc + i
    {
      if hwm[hc] == v { return; }
      assert hwm[hc..][1..] == hwm[hc + 1..];
      hc := hc + 1;
    }
  }

  // ---- What it should do ----

  /** The call at `x` still waits for its group: its link is in the list. */
  predicate Waits(h: seq<nat>, x: nat) { x + 1 in h }

  function Sum(h: seq<nat>): nat {
    if h == [] then 0 else h[0] + Sum(h[1..])
  }

  /** Every entry follows its call up by `d`. */
  function Shifted(h: seq<nat>, d: nat): (r: seq<nat>)
    ensures |r| == |h| && forall i :: 0 <= i < |h| ==> r[i] == h[i] + d
  {
    seq(|h|, i requires 0 <= i < |h| => h[i] + d)
  }

  /** The list has the link fields of just these calls, each once. */
  predicate ListOf(h: seq<nat>, calls: seq<nat>) {
    (forall v :: v in h ==> v > 0 && v - 1 in calls) && forall i, j :: 0 <= i < j < |h| ==> h[i] != h[j]
  }

  /** Calls that are resolved follow their target if it is in the group; the
      list, in some order, has each entry moved up with its call. */
  ghost predicate Right(st: State, r: State, calls: seq<nat>, group: nat, d: nat) {
    && |r.code| == |st.code| && (forall x :: x in calls ==> x + 2 < |st.code|)
    && multiset(r.hwm) == multiset(Shifted(st.hwm, d))
    && (forall x :: x in calls ==>
          Get(r.code, x + 1) ==
          if Waits(st.hwm, x) || Get(st.code, x + 1) < group then Get(st.code, x + 1) else Get(st.code, x + 1) + d)
  }

  /** A resolved call lies just `d` behind one that waits. */
  predicate Trap(h: seq<nat>, calls: seq<nat>, d: nat) {
    exists x :: x in calls && Waits(h, x) && x + d in calls && !Waits(h, x + d)
  }

  // ---- Part of the way through ----

  /** The list once the calls in `done` are done. */
  function Upto(h: seq<nat>, done: seq<nat>, d: nat): (r: seq<nat>)
    ensures |r| == |h| && forall i :: 0 <= i < |h| ==> r[i] == if h[i] > 0 && h[i] - 1 in done then h[i] + d else h[i]
  {
    seq(|h|, i requires 0 <= i < |h| => if h[i] > 0 && h[i] - 1 in done then h[i] + d else h[i])
  }

  lemma ReplaceOne(a: seq<nat>, i: nat, b: seq<nat>, j: nat, v: nat)
    requires multiset(a) == multiset(b) && i < |a| && j < |b| && a[i] == b[j]
    ensures multiset(a[i := v]) == multiset(b[j := v])
  {
    assert multiset(a[i := v]) == multiset(a)[a[i] := multiset(a)[a[i]] - 1] + multiset{v} by { ReplaceCount(a, i, v); }
    assert multiset(b[j := v]) == multiset(b)[b[j] := multiset(b)[b[j]] - 1] + multiset{v} by { ReplaceCount(b, j, v); }
  }

  lemma ReplaceCount(a: seq<nat>, i: nat, v: nat)
    requires i < |a|
    ensures multiset(a[i := v]) == multiset(a)[a[i] := multiset(a)[a[i]] - 1] + multiset{v}
  {
    assert a == a[..i] + [a[i]] + a[i + 1..];
    assert a[i := v] == a[..i] + [v] + a[i + 1..];
  }

  lemma {:induction false} SumReplace(a: seq<nat>, i: nat, v: nat)
    requires i < |a|
    ensures Sum(a[i := v]) == Sum(a) - a[i] + v
    decreases |a|
  {
    if i == 0 {
      assert a[0 := v][1..] == a[1..];
    } else {
      SumReplace(a[1..], i - 1, v);
      assert a[i := v][1..] == a[1..][i - 1 := v];
    }
  }

  lemma {:induction false} SumWithout(a: seq<nat>, i: nat)
    requires i < |a|
    ensures Sum(a) == a[i] + Sum(a[..i] + a[i + 1..])
    decreases |a|
  {
    if i == 0 {
      assert a[..0] + a[1..] == a[1..];
    } else {
      SumWithout(a[1..], i - 1);
      assert (a[..i] + a[i + 1..])[1..] == a[1..][..i - 1] + a[1..][i..];
      assert (a[..i] + a[i + 1..])[0] == a[0];
    }
  }

  /** The order does not matter for the sum. */
  lemma {:induction false} SumOrder(a: seq<nat>, b: seq<nat>)
    requires multiset(a) == multiset(b)
    ensures Sum(a) == Sum(b)
    decreases |a|
  {
    if a == [] {
      assert |multiset(b)| == 0;
    } else {
      assert a[0] in multiset(b);
      var i :| 0 <= i < |b| && b[i] == a[0];
      SumWithout(b, i);
      Without(b, i);
      Without(a, 0);
      assert a[..0] + a[1..] == a[1..];
      SumOrder(a[1..], b[..i] + b[i + 1..]);
    }
  }

  lemma Without(a: seq<nat>, i: nat)
    requires i < |a|
    ensures multiset(a[..i] + a[i + 1..]) == multiset(a) - multiset{a[i]}
  {
    assert a == a[..i] + [a[i]] + a[i + 1..];
  }

  // ---- Without a trap all is well ----

  /** After the first `k` calls. */
  ghost predicate Midway(st0: State, st: State, all: seq<nat>, k: nat, group: nat, d: nat) {
    && k <= |all| && |st.code| == |st0.code| && (forall j :: 0 <= j < |all| ==> all[j] + 2 < |st.code|)
    && multiset(st.hwm) == multiset(Upto(st0.hwm, all[..k], d))
    && forall j :: 0 <= j < |all| ==>
         Get(st.code, all[j] + 1) ==
         if j >= k || Waits(st0.hwm, all[j]) || Get(st0.code, all[j] + 1) < group then Get(st0.code, all[j] + 1)
         else Get(st0.code, all[j] + 1) + d
  }

  lemma MultisetHas(a: seq<nat>, b: seq<nat>, v: nat)
    requires multiset(a) == multiset(b)
    ensures v in a <==> v in b
  {
    assert v in a <==> v in multiset(a);
    assert v in b <==> v in multiset(b);
  }

  /** What one more call changes in the list as it should be. */
  lemma UptoStep(h: seq<nat>, all: seq<nat>, k: nat, d: nat)
    requires k < |all| && ListOf(h, all) && Rising(all)
    ensures var a, b, x := Upto(h, all[..k], d), Upto(h, all[..k + 1], d), all[k];
            && (!Waits(h, x) ==> b == a)
            && (Waits(h, x) ==> exists j :: 0 <= j < |a| && a[j] == x + 1 && b == a[j := x + 1 + d])
  {
    hide Upto;
    var a, b, x := Upto(h, all[..k], d), Upto(h, all[..k + 1], d), all[k];
    forall i | 0 <= i < |h| ensures b[i] == if h[i] == x + 1 then x + 1 + d else a[i] {
      if h[i] > 0 { InStep(all, k, h[i] - 1); }
    }
    InStep(all, k, x);
    if Waits(h, x) {
      var j :| 0 <= j < |h| && h[j] == x + 1;
      assert b == a[j := x + 1 + d];
    } else {
      assert b == a;
    }
  }

  lemma InStep(all: seq<nat>, k: nat, v: nat)
    requires k < |all| && Rising(all)
    ensures v in all[..k + 1] <==> v in all[..k] || v == all[k]
    ensures all[k] !in all[..k]
  {
    assert all[..k + 1] == all[..k] + [all[k]];
  }

  /** Only a trap makes a resolved call look as if it waited. */
  lemma FooledByTrap(h: seq<nat>, all: seq<nat>, k: nat, d: nat)
    requires k < |all| && !Waits(h, all[k]) && all[k] + 1 in Upto(h, all[..k], d) && ListOf(h, all)
    ensures Trap(h, all, d)
  {
    var a := Upto(h, all[..k], d);
    var i :| 0 <= i < |a| && a[i] == all[k] + 1;
    assert h[i] in h;
    var y := h[i] - 1;
    assert y in all && Waits(h, y) && y + d == all[k] && all[k] in all;
  }

  lemma MidwayStep(st0: State, st: State, all: seq<nat>, k: nat, group: nat, d: nat)
    requires k < |all| && ListOf(st0.hwm, all) && Rising(all) && !Trap(st0.hwm, all, d)
    requires Midway(st0, st, all, k, group, d)
    ensures all[k] + 2 < |st.code| && Midway(st0, Adjusted(st, all[k], group, d), all, k + 1, group, d)
  {
    hide Trap, ListOf, Upto, IndexOf, Get, Waits, Rising;
    var x := all[k];
    MultisetHas(st.hwm, Upto(st0.hwm, all[..k], d), x + 1);
    MidwayList(st0.hwm, st, all, k, group, d);
    if Waits(st0.hwm, x) {
      WaitsThere(st0.hwm, all, k, d);
    } else {
      if x + 1 in Upto(st0.hwm, all[..k], d) { FooledByTrap(st0.hwm, all, k, d); }
      LinkStep(st.code, all, k, group, d);
    }
  }

  lemma WaitsThere(h: seq<nat>, all: seq<nat>, k: nat, d: nat)
    requires k < |all| && Waits(h, all[k]) && ListOf(h, all) && Rising(all)
    ensures all[k] + 1 in Upto(h, all[..k], d)
  {
    UptoStep(h, all, k, d);
  }

  /** The list after one more call. */
  lemma MidwayList(h: seq<nat>, st: State, all: seq<nat>, k: nat, group: nat, d: nat)
    requires k < |all| && ListOf(h, all) && Rising(all) && !Trap(h, all, d) && all[k] + 2 < |st.code|
    requires multiset(st.hwm) == multiset(Upto(h, all[..k], d))
    ensures multiset(Adjusted(st, all[k], group, d).hwm) == multiset(Upto(h, all[..k + 1], d))
  {
    hide Trap, ListOf, Upto, IndexOf, Get, Rising, Waits;
    var x := all[k];
    var a, b := Upto(h, all[..k], d), Upto(h, all[..k + 1], d);
    UptoStep(h, all, k, d);
    MultisetHas(st.hwm, a, x + 1);
    if Waits(h, x) {
      WaitsThere(h, all, k, d);
      var j :| 0 <= j < |a| && a[j] == x + 1 && b == a[j := x + 1 + d];
      ReplaceOne(st.hwm, IndexOf(st.hwm, x + 1), a, j, x + 1 + d);
    } else if x + 1 in a {
      FooledByTrap(h, all, k, d);
    }
  }

  /** Changing one link leaves those of the other calls alone. */
  lemma LinkStep(c: seq<int>, all: seq<nat>, k: nat, group: nat, d: nat)
    requires k < |all| && Rising(all) && forall j :: 0 <= j < |all| ==> all[j] + 2 < |c|
    ensures var x := all[k]; var t := Get(c, x + 1); var c' := c[x + 1 := (t + d) / 256][x + 2 := (t + d) % 256];
            Get(c', x + 1) == t + d && forall j :: 0 <= j < |all| && j != k ==> Get(c', all[j] + 1) == Get(c, all[j] + 1)
  {
    var x := all[k];
    forall j | 0 <= j < |all| && j != k ensures all[j] + 3 <= x || x + 3 <= all[j] {}
  }

  lemma {:induction false} RunRight(st0: State, st: State, all: seq<nat>, k: nat, group: nat, d: nat)
    requires k <= |all| && ListOf(st0.hwm, all) && Rising(all) && !Trap(st0.hwm, all, d) && Midway(st0, st, all, k, group, d)
    ensures (forall x :: x in all[k..] ==> x + 2 < |st.code|) && Midway(st0, Run(st, all[k..], group, d), all, |all|, group, d)
    decreases |all| - k
  {
    hide Midway, Trap, ListOf, Adjusted;
    MidwayCalls(st0, st, all, k, group, d);
    if k < |all| {
      MidwayStep(st0, st, all, k, group, d);
      RunRight(st0, Adjusted(st, all[k], group, d), all, k + 1, group, d);
      assert all[k..][1..] == all[k + 1..];
    }
  }

  lemma MidwayCalls(st0: State, st: State, all: seq<nat>, k: nat, group: nat, d: nat)
    requires Midway(st0, st, all, k, group, d)
    ensures forall x :: x in all[k..] ==> x + 2 < |st.code|
  {
    forall x | x in all[k..] ensures x + 2 < |st.code| {
      var j :| 0 <= j < |all[k..]| && all[k..][j] == x;
      assert all[k + j] == x;
    }
  }

  lemma UptoAll(h: seq<nat>, all: seq<nat>, d: nat)
    requires ListOf(h, all)
    ensures Upto(h, all[..|all|], d) == Shifted(h, d) && Upto(h, all[..0], d) == h
  {
    assert all[..|all|] == all;
    forall i | 0 <= i < |h| ensures h[i] > 0 && h[i] - 1 in all { assert h[i] in h; }
  }

  // ---- With a trap something goes wrong ----

  ghost predicate TrapBefore(h: seq<nat>, all: seq<nat>, k: nat, d: nat)
    requires k <= |all|
  {
    exists i, j :: 0 <= i < k && 0 <= j < k && Waits(h, all[i]) && all[j] == all[i] + d && !Waits(h, all[j])
  }

  /** Entries of calls to come are still there, those of calls passed were moved
      up; the sum shows when one was moved up too far. */
  ghost predicate Moved(h: seq<nat>, cur: seq<nat>, all: seq<nat>, k: nat, d: nat) {
    && k <= |all|
    && (forall j :: k <= j < |all| && Waits(h, all[j]) ==> all[j] + 1 in cur)
    && (forall j :: 0 <= j < k && Waits(h, all[j]) && all[j] + d !in all[..k] ==> all[j] + 1 + d in cur)
    && Sum(cur) >= Sum(Upto(h, all[..k], d)) && (TrapBefore(h, all, k, d) ==> Sum(cur) > Sum(Upto(h, all[..k], d)))
  }

  lemma MovedStep(h: seq<nat>, st: State, all: seq<nat>, k: nat, group: nat, d: nat)
    requires k < |all| && ListOf(h, all) && Rising(all) && d > 0 && Moved(h, st.hwm, all, k, d) && all[k] + 2 < |st.code|
    ensures Moved(h, Adjusted(st, all[k], group, d).hwm, all, k + 1, d)
  {
    hide ListOf, Upto, Sum, IndexOf, TrapBefore, Waits, Get, Rising;
    MovedEntries(h, st, all, k, group, d);
    MovedSum(h, st, all, k, group, d);
  }

  lemma MovedEntries(h: seq<nat>, st: State, all: seq<nat>, k: nat, group: nat, d: nat)
    requires k < |all| && Rising(all) && d > 0 && Moved(h, st.hwm, all, k, d) && all[k] + 2 < |st.code|
    ensures var cur := Adjusted(st, all[k], group, d).hwm;
            && (forall j :: k + 1 <= j < |all| && Waits(h, all[j]) ==> all[j] + 1 in cur)
            && (forall j :: 0 <= j < k + 1 && Waits(h, all[j]) && all[j] + d !in all[..k + 1] ==> all[j] + 1 + d in cur)
  {
    hide Upto, Sum, IndexOf, TrapBefore, Waits, Get;
    var x := all[k];
    assert all[..k + 1] == all[..k] + [x];
    var i := IndexOf(st.hwm, x + 1);
    if i >= 0 { StillThere(st.hwm, i, x + 1 + d); }
  }

  lemma MovedSum(h: seq<nat>, st: State, all: seq<nat>, k: nat, group: nat, d: nat)
    requires k < |all| && ListOf(h, all) && Rising(all) && d > 0 && Moved(h, st.hwm, all, k, d) && all[k] + 2 < |st.code|
    ensures var cur := Adjusted(st, all[k], group, d).hwm; var b := Upto(h, all[..k + 1], d);
            Sum(cur) >= Sum(b) && (TrapBefore(h, all, k + 1, d) ==> Sum(cur) > Sum(b))
  {
    hide ListOf, Upto, Sum, IndexOf, TrapBefore, Waits, Get;
    var x := all[k];
    var a, b := Upto(h, all[..k], d), Upto(h, all[..k + 1], d);
    UptoStep(h, all, k, d);
    TrapStep(h, all, k, d);
    var i := IndexOf(st.hwm, x + 1);
    if i >= 0 { SumReplace(st.hwm, i, x + 1 + d); }
    if Waits(h, x) {
      var j :| 0 <= j < |a| && a[j] == x + 1 && b == a[j := x + 1 + d];
      SumReplace(a, j, x + 1 + d);
      assert x + 1 in st.hwm;
    } else if TrapBefore(h, all, k + 1, d) && !TrapBefore(h, all, k, d) {
      var j :| 0 <= j < k && Waits(h, all[j]) && x == all[j] + d;
      assert x !in all[..k];
    }
  }

  lemma StillThere(a: seq<nat>, i: nat, v: nat)
    requires i < |a|
    ensures v in a[i := v] && forall u :: u in a && u != a[i] ==> u in a[i := v]
  {
    assert a[i := v][i] == v;
    forall u | u in a && u != a[i] ensures u in a[i := v] {
      var j :| 0 <= j < |a| && a[j] == u;
      assert a[i := v][j] == u;
    }
  }

  lemma TrapStep(h: seq<nat>, all: seq<nat>, k: nat, d: nat)
    requires k < |all| && Rising(all) && d > 0
    ensures TrapBefore(h, all, k, d) ==> TrapBefore(h, all, k + 1, d)
    ensures TrapBefore(h, all, k + 1, d) && !TrapBefore(h, all, k, d) ==>
              !Waits(h, all[k]) && exists j :: 0 <= j < k && Waits(h, all[j]) && all[k] == all[j] + d
  {
    if TrapBefore(h, all, k + 1, d) && !TrapBefore(h, all, k, d) {
      var i, j :| 0 <= i < k + 1 && 0 <= j < k + 1 && Waits(h, all[i]) && all[j] == all[i] + d && !Waits(h, all[j]);
      assert j == k;
    }
  }

  lemma {:induction false} RunMoved(h: seq<nat>, st: State, all: seq<nat>, k: nat, group: nat, d: nat)
    requires k <= |all| && ListOf(h, all) && Rising(all) && d > 0 && Moved(h, st.hwm, all, k, d)
    requires forall x :: x in all ==> x + 2 < |st.code|
    ensures (forall x :: x in all[k..] ==> x + 2 < |st.code|) && Moved(h, Run(st, all[k..], group, d).hwm, all, |all|, d)
    decreases |all| - k
  {
    hide Moved, ListOf, Adjusted;
    forall x | x in all[k..] ensures x + 2 < |st.code| { assert x in all; }
    if k < |all| {
      assert all[k] in all;
      MovedStep(h, st, all, k, group, d);
      RunMoved(h, Adjusted(st, all[k], group, d), all, k + 1, group, d);
      assert all[k..][1..] == all[k + 1..];
    }
  }

  /** The calls are put right if and only if no resolved call lies `d` cells
      behind one that waits for its group. */
  lemma AdjustExact(st: State, all: seq<nat>, group: nat, d: nat)
    requires ListOf(st.hwm, all) && Rising(all) && d > 0 && forall x :: x in all ==> x + 2 < |st.code|
    ensures Right(st, Run(st, all, group, d), all, group, d) <==> !Trap(st.hwm, all, d)
  {
    hide ListOf, Run, Sum, Upto, Shifted, Waits;
    var r := Run(st, all, group, d);
    assert all[0..] == all;
    UptoAll(st.hwm, all, d);
    if Trap(st.hwm, all, d) {
      MovedStart(st.hwm, all, d);
      RunMoved(st.hwm, st, all, 0, group, d);
      TrapAll(st.hwm, all, d);
      if multiset(r.hwm) == multiset(Shifted(st.hwm, d)) { SumOrder(r.hwm, Shifted(st.hwm, d)); }
    } else {
      MidwayStart(st, all, group, d);
      RunRight(st, st, all, 0, group, d);
      MidwayEnd(st, r, all, group, d);
    }
  }

  lemma MovedStart(h: seq<nat>, all: seq<nat>, d: nat)
    requires ListOf(h, all)
    ensures Moved(h, h, all, 0, d)
  {
    UptoAll(h, all, d);
  }

  lemma TrapAll(h: seq<nat>, all: seq<nat>, d: nat)
    requires Trap(h, all, d)
    ensures TrapBefore(h, all, |all|, d)
  {
    var x :| x in all && Waits(h, x) && x + d in all && !Waits(h, x + d);
    var i :| 0 <= i < |all| && all[i] == x;
    var j :| 0 <= j < |all| && all[j] == x + d;
  }

  lemma MidwayStart(st: State, all: seq<nat>, group: nat, d: nat)
    requires ListOf(st.hwm, all) && forall x :: x in all ==> x + 2 < |st.code|
    ensures Midway(st, st, all, 0, group, d)
  {
    UptoAll(st.hwm, all, d);
    forall j | 0 <= j < |all| ensures all[j] + 2 < |st.code| { assert all[j] in all; }
  }

  lemma MidwayEnd(st0: State, r: State, all: seq<nat>, group: nat, d: nat)
    requires Midway(st0, r, all, |all|, group, d) && multiset(Upto(st0.hwm, all[..|all|], d)) == multiset(Shifted(st0.hwm, d))
    ensures Right(st0, r, all, group, d)
  {
    forall x | x in all
      ensures Get(r.code, x + 1) ==
              if Waits(st0.hwm, x) || Get(st0.code, x + 1) < group then Get(st0.code, x + 1) else Get(st0.code, x + 1) + d
    {
      var j :| 0 <= j < |all| && all[j] == x;
    }
  }

  lemma CallsStep(c: seq<int>, p: nat, e: nat, q: nat)
    requires p < |c| && c[p] != OP_END && p < q == p + Step(c, p) && OpsTo(c, q, e)
    ensures OpsTo(c, p, e) && Calls(c, p, e) == if c[p] == OP_RECURSE then [p] + Calls(c, q, e) else Calls(c, q, e)
  {
    assert [] + Calls(c, q, e) == Calls(c, q, e);
  }

  lemma CallsNone(c: seq<int>, e: nat)
    requires e < |c| && c[e] == OP_END
    ensures OpsTo(c, e, e) && Calls(c, e, e) == []
  {}

  /** The code of (c(?2)\d(?1)) at the start of a pattern: the call of group 2
      waits for it, and four cells on lies the call of group 1. The compiler
      accepts the call of the open group 1 because the c must match something. */
  const SAMPLE: seq<int> :=
    [OP_BRA, 0, 0, OP_CBRA, 0, 14, 0, 1, OP_CHAR, 99, OP_RECURSE, 0, 2, OP_DIGIT, OP_RECURSE, 0, 3, OP_KET, 0, 14, OP_END]

  lemma SampleCalls()
    ensures OpsTo(SAMPLE, 3, 20) && Calls(SAMPLE, 3, 20) == [10, 14]
  {
    hide OpsTo, Calls;
    CallsNone(SAMPLE, 20);
    CallsStep(SAMPLE, 17, 20, 20);
    CallsStep(SAMPLE, 14, 20, 17);
    CallsStep(SAMPLE, 13, 20, 14);
    CallsStep(SAMPLE, 10, 20, 13);
    CallsStep(SAMPLE, 8, 20, 10);
    CallsStep(SAMPLE, 3, 20, 8);
  }

  /** It does go wrong, when (c(?2)\d(?1)){0,3}(b) moves its first group up by 4. */
  lemma TrapHappens()
    ensures OpsTo(SAMPLE, 3, 20) && Calls(SAMPLE, 3, 20) == [10, 14] && Trap([11], [10, 14], 2 + LINK_SIZE)
    ensures !Right(State(SAMPLE, [11]), Run(State(SAMPLE, [11]), [10, 14], 3, 2 + LINK_SIZE), [10, 14], 3, 2 + LINK_SIZE)
  {
    hide OpsTo, Calls, Run, Right;
    SampleCalls();
    assert 10 in [10, 14] && Waits([11], 10) && 10 + 4 in [10, 14] && !Waits([11], 14);
    AdjustExact(State(SAMPLE, [11]), [10, 14], 3, 4);
  }

  // ---- Adjusting and moving ----

  predicate IsLink(calls: seq<nat>, y: nat) {
    exists x :: x in calls && (y == x + 1 || y == x + 2)
  }

  lemma {:induction false} RunElsewhere(st: State, calls: seq<nat>, group: nat, d: nat, y: nat)
    requires (forall x :: x in calls ==> x + 2 < |st.code|) && y < |st.code| && !IsLink(calls, y)
    ensures Run(st, calls, group, d).code[y] == st.code[y]
    decreases |calls|
  {
    if calls != [] {
      assert calls[0] in calls && forall x :: x in calls[1..] ==> x in calls;
      RunElsewhere(Adjusted(st, calls[0], group, d), calls[1..], group, d, y);
    }
  }

  /** A call that is resolved leads to an opcode, and lands on the same opcode
      after the group was moved. */
  ghost predicate SameTarget(was: seq<int>, now: seq<int>, x: nat, group: nat, d: nat) {
    x + 2 < |was| && x + d + 2 < |now| &&
    var t, t' := Get(was, x + 1), Get(now, x + d + 1);
    0 <= t < |was| && 0 <= t' < |now| && t' == (if t >= group then t + d else t) && now[t'] == was[t]
  }

  /** A zero-minimum quantifier moves its group: calls are adjusted, then the
      cells are shifted up. */
  method MoveGroup(code: array<int>, hwm: array<nat>, group: nat, d: nat, e: nat)
    requires OpsTo(code[..], group, e) && e + d <= code.Length && d > 0
    requires ListOf(hwm[..], Calls(code[..], group, e)) && !Trap(hwm[..], Calls(code[..], group, e), d)
    requires forall x :: x in Calls(code[..], group, e) && !Waits(hwm[..], x) && x + 2 < code.Length ==>
               0 <= Get(code[..], x + 1) < e && !IsLink(Calls(code[..], group, e), Get(code[..], x + 1))
    modifies code, hwm
    ensures multiset(hwm[..]) == multiset(Shifted(old(hwm[..]), d))
    ensures forall x :: x in old(Calls(code[..], group, e)) ==>
              if Waits(old(hwm[..]), x) then x + 2 < code.Length && x + d + 2 < code.Length && Get(code[..], x + d + 1) == Get(old(code[..]), x + 1)
              else SameTarget(old(code[..]), code[..], x, group, d)
  {
    hide OpsTo, Calls, Run, Right, ListOf, Trap, Rising, Shifted;
    ghost var was, h, calls := code[..], hwm[..], Calls(code[..], group, e);
    CallsRise(was, group, e);
    OpsInside(was, group, e);
    AdjustExact(State(was, h), calls, group, d);
    AdjustRecurse(code, hwm, group, d, e);
    ghost var mid := code[..];
    MoveUp(code, group, e - group, d);
    RightMeans(State(was, h), State(mid, hwm[..]), calls, group, d);
    forall x | x in calls
      ensures x + 2 < |was| && x + d + 2 < code.Length &&
              if Waits(h, x) then Get(code[..], x + d + 1) == Get(was, x + 1) else SameTarget(was, code[..], x, group, d)
    {
      CellMoved(mid, code[..], group, e - group, d, x + 1);
      CellMoved(mid, code[..], group, e - group, d, x + 2);
      if !Waits(h, x) {
        var t := Get(was, x + 1);
        RunElsewhere(State(was, h), calls, group, d, t);
        CellMoved(mid, code[..], group, e - group, d, t);
      }
    }
  }

  lemma RightMeans(st: State, r: State, calls: seq<nat>, group: nat, d: nat)
    requires Right(st, r, calls, group, d)
    ensures |r.code| == |st.code| && multiset(r.hwm) == multiset(Shifted(st.hwm, d))
    ensures forall x :: x in calls ==>
              x + 2 < |st.code| &&
              Get(r.code, x + 1) ==
              if Waits(st.hwm, x) || Get(st.code, x + 1) < group then Get(st.code, x + 1) else Get(st.code, x + 1) + d
  {}

  lemma CellMoved(was: seq<int>, now: seq<int>, p: nat, n: nat, d: nat, y: nat)
    requires Kept(was, now, p) && Copied(was, p, n, now, d) && y < p + n
    ensures y < |was| && (y < p ==> y < |now| && now[y] == was[y]) && (y >= p ==> y + d < |now| && now[y + d] == was[y])
  {}
}
