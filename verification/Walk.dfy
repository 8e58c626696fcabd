/** The walk of find_recurse() over code that the compiler emitted: whatever the
    nesting, it finds the calls, all of them, and nothing else. */
module Walk {
  import opened Opcodes
  import opened Tree
  import opened Kont
  import opened Layout
  import opened Recurse

  /** Code with calls in it, in the order of the cells: pieces without calls,
      and between them calls, and the brackets that have calls inside. */
  datatype Part =
    | Code(b: Branch)
    | Opening(cap: nat, ket: Ket)
    | Bar
    | Closing(ket: Ket)
    | Optional(op: int)
    | Call

  function PartSize(x: Part): nat {
    match x
    case Code(b) => BranchSize(b)
    case Opening(cap, _) => HeadSize(cap)
    case Optional(_) => 1
    case _ => 1 + LINK_SIZE
  }

  predicate PartAt(c: seq<int>, p: nat, x: Part) {
    p + PartSize(x) <= |c| &&
    match x
    case Code(b) => ShapedBranch(b) && BranchAt(c, p, b)
    case Opening(cap, ket) => c[p] == BraOp(cap, ket) && (ket.Atomic? ==> cap == 0)
    case Bar => c[p] == OP_ALT
    case Closing(ket) => c[p] == KetOp(ket)
    case Optional(op) => c[p] == op && OP_BRAZERO <= op <= OP_BRAPOSZERO
    case Call => c[p] == OP_RECURSE
  }

  function PartsSize(xs: seq<Part>): nat {
    if xs == [] then 0 else PartSize(xs[0]) + PartsSize(xs[1..])
  }

  predicate PartsAt(c: seq<int>, p: nat, xs: seq<Part>)
    decreases |xs|
  {
    xs == [] || (PartAt(c, p, xs[0]) && PartsAt(c, p + PartSize(xs[0]), xs[1..]))
  }

  /** Where the calls stand. */
  function CallsIn(xs: seq<Part>, p: nat): seq<nat> {
    if xs == [] then []
    else if xs[0].Call? then [p] + CallsIn(xs[1..], p + 1 + LINK_SIZE)
    else CallsIn(xs[1..], p + PartSize(xs[0]))
  }

  // ---- No step of the walk leads into the middle of an item ----

  /** From `p` on the walk is what it is from `q` on. */
  ghost predicate Passes(c: seq<int>, p: nat, q: nat, e: nat) {
    OpsTo(c, q, e) ==> OpsTo(c, p, e) && Calls(c, p, e) == Calls(c, q, e)
  }

  lemma PassOne(c: seq<int>, p: nat, q: nat, e: nat)
    requires p < |c| && c[p] != OP_END && c[p] != OP_RECURSE && p < q == p + Step(c, p)
    ensures Passes(c, p, q, e)
  {
    if OpsTo(c, q, e) { CallsStep(c, p, e, q); }
  }

  lemma PassBoth(c: seq<int>, p: nat, q: nat, r: nat, e: nat)
    requires Passes(c, p, q, e) && Passes(c, q, r, e)
    ensures Passes(c, p, r, e)
  {}

  lemma ElementStep(c: seq<int>, p: nat, it: Item)
    requires ShapedItem(it) && ItemAt(c, p, it) && !it.Bra? && !it.BraZero? && !(it.Rep? && it.x.Set?)
    ensures p < |c| && c[p] != OP_END && c[p] != OP_RECURSE && Step(c, p) == ItemSize(it) > 0
  {
    if it.Rep? { assert RepAt(c, p, it.x, it.kind, it.lazy); }
  }

  lemma ClassStep(c: seq<int>, p: nat, it: Item)
    requires ShapedItem(it) && ItemAt(c, p, it) && it.Rep? && it.x.Set?
    ensures p + 33 < |c| && c[p] == OP_CLASS && Step(c, p) == 33
    ensures c[p + 33] != OP_END && c[p + 33] != OP_RECURSE && 33 + Step(c, p + 33) == ItemSize(it) > 33
  {
    assert RepAt(c, p, it.x, it.kind, it.lazy);
  }

  lemma OpeningStep(c: seq<int>, p: nat, cap: nat, ket: Ket)
    requires p < |c| && c[p] == BraOp(cap, ket) && (ket.Atomic? ==> cap == 0)
    ensures c[p] != OP_END && c[p] != OP_RECURSE && Step(c, p) == HeadSize(cap) > 0
  {}

  lemma ClosingStep(c: seq<int>, p: nat, ket: Ket)
    requires p < |c| && (c[p] == KetOp(ket) || c[p] == OP_ALT)
    ensures c[p] != OP_END && c[p] != OP_RECURSE && Step(c, p) == 1 + LINK_SIZE
  {}

  lemma {:induction false} PassItem(c: seq<int>, p: nat, it: Item, e: nat)
    requires ShapedItem(it) && ItemAt(c, p, it)
    ensures Passes(c, p, p + ItemSize(it), e)
    decreases it
  {
    hide Passes, Step, Get, AltsAt, AltsSize, ShapedAlts, SingleAt, RepAt;
    var q := p + ItemSize(it);
    if it.Bra? {
      var h := HeadSize(it.cap);
      var k := p + AltsSize(h, it.alts);
      BraParts(c, p, it);
      OpeningStep(c, p, it.cap, it.ket);
      PassOne(c, p, p + h, e);
      PassAlts(c, p, h, it.alts, e);
      ClosingStep(c, k, it.ket);
      PassOne(c, k, q, e);
      PassBoth(c, p + h, k, q, e);
      PassBoth(c, p, p + h, q, e);
    } else if it.BraZero? {
      PrefixStep(c, p, it);
      PassOne(c, p, p + 1, e);
      PassItem(c, p + 1, it.bra, e);
      PassBoth(c, p, p + 1, q, e);
    } else if it.Rep? && it.x.Set? {
      ClassStep(c, p, it);
      PassOne(c, p, p + 33, e);
      PassOne(c, p + 33, q, e);
      PassBoth(c, p, p + 33, q, e);
    } else {
      ElementStep(c, p, it);
      PassOne(c, p, q, e);
    }
  }

  lemma PrefixStep(c: seq<int>, p: nat, it: Item)
    requires it.BraZero? && ItemAt(c, p, it)
    ensures p < |c| && c[p] != OP_END && c[p] != OP_RECURSE && Step(c, p) == 1
  {
    hide AltsAt, AltsSize;
  }

  lemma {:induction false} PassBranch(c: seq<int>, p: nat, b: Branch, e: nat)
    requires ShapedBranch(b) && BranchAt(c, p, b)
    ensures Passes(c, p, p + BranchSize(b), e)
    decreases b
  {
    hide ItemAt, ItemSize, ShapedItem, OpsTo, Calls;
    if b.Cons? {
      PassItem(c, p, b.hd, e);
      PassBranch(c, p + ItemSize(b.hd), b.tl, e);
    }
  }

  /** The branches of a group, from behind its header to its ket. */
  lemma {:induction false} PassAlts(c: seq<int>, p: nat, h: nat, a: Alts, e: nat)
    requires ShapedAlts(a) && AltsAt(c, p, h, a)
    ensures Passes(c, p + h, p + AltsSize(h, a), e)
    decreases a
  {
    hide BranchAt, BranchSize, ShapedBranch, Passes, Step, Get;
    var q := p + h + BranchSize(a.b);
    PassBranch(c, p + h, a.b, e);
    if a.More? {
      ClosingStep(c, q, Once);
      PassOne(c, q, q + 1 + LINK_SIZE, e);
      PassAlts(c, q, 1 + LINK_SIZE, a.rest, e);
      PassBoth(c, q, q + 1 + LINK_SIZE, q + AltsSize(1 + LINK_SIZE, a.rest), e);
      PassBoth(c, p + h, q, q + AltsSize(1 + LINK_SIZE, a.rest), e);
    }
  }

  // ---- What is found ----

  lemma PassPart(c: seq<int>, p: nat, x: Part, e: nat)
    requires PartAt(c, p, x) && !x.Call?
    ensures Passes(c, p, p + PartSize(x), e)
  {
    hide Passes, Step, OpsTo, Calls, BranchAt, BranchSize, ShapedBranch;
    match x
    case Code(b) => PassBranch(c, p, b, e);
    case Opening(cap, ket) =>
      OpeningStep(c, p, cap, ket);
      PassOne(c, p, p + HeadSize(cap), e);
    case Bar =>
      ClosingStep(c, p, Once);
      PassOne(c, p, p + 3, e);
    case Closing(ket) =>
      ClosingStep(c, p, ket);
      PassOne(c, p, p + 3, e);
    case Optional(op) =>
      assert Step(c, p) == 1 by { OneCell(c, p); }
      PassOne(c, p, p + 1, e);
  }

  lemma OneCell(c: seq<int>, p: nat)
    requires p < |c| && OP_BRAZERO <= c[p] <= OP_BRAPOSZERO
    ensures Step(c, p) == 1
  {}

  lemma {:induction false} PartsCalls(c: seq<int>, p: nat, xs: seq<Part>, e: nat)
    requires PartsAt(c, p, xs) && OpsTo(c, p + PartsSize(xs), e)
    ensures OpsTo(c, p, e) && Calls(c, p, e) == CallsIn(xs, p) + Calls(c, p + PartsSize(xs), e)
    decreases |xs|
  {
    hide PartAt, OpsTo, Calls, Step;
    if xs != [] {
      var q := p + PartSize(xs[0]);
      PartsCalls(c, q, xs[1..], e);
      if xs[0].Call? {
        CallThere(c, p, xs[0]);
        CallsStep(c, p, e, q);
        assert [p] + (CallsIn(xs[1..], q) + Calls(c, p + PartsSize(xs), e)) == CallsIn(xs, p) + Calls(c, p + PartsSize(xs), e);
      } else {
        PassPart(c, p, xs[0], e);
      }
    }
  }

  lemma CallThere(c: seq<int>, p: nat, x: Part)
    requires PartAt(c, p, x) && x.Call?
    ensures p < |c| && c[p] == OP_RECURSE && Step(c, p) == 3 == PartSize(x)
  {}

  /** Up to the end marker the walk meets exactly the calls. */
  lemma AllCalls(c: seq<int>, p: nat, xs: seq<Part>, e: nat)
    requires PartsAt(c, p, xs) && e == p + PartsSize(xs) < |c| && c[e] == OP_END
    ensures OpsTo(c, p, e) && Calls(c, p, e) == CallsIn(xs, p)
  {
    hide OpsTo, Calls, PartsAt;
    CallsNone(c, e);
    PartsCalls(c, p, xs, e);
  }

  lemma OnlyCode(c: seq<int>, p: nat, b: Branch)
    requires ShapedBranch(b) && BranchAt(c, p, b)
    ensures PartsAt(c, p, [Code(b)]) && PartsSize([Code(b)]) == BranchSize(b) && CallsIn([Code(b)], p) == []
    ensures PartsSize([Code(b), Call]) == BranchSize(b) + 3 && CallsIn([Code(b), Call], p) == [p + BranchSize(b)]
    ensures p + BranchSize(b) + 3 <= |c| && c[p + BranchSize(b)] == OP_RECURSE ==> PartsAt(c, p, [Code(b), Call])
  {
    hide BranchAt, BranchSize, ShapedBranch;
    BranchFits(c, p, b);
    assert [Code(b)][1..] == [] && [Code(b), Call][1..] == [Call] && [Call][1..] == [];
    assert PartsSize([Call]) == 3 && CallsIn([Call], p + BranchSize(b)) == [p + BranchSize(b)];
    assert p + BranchSize(b) + 3 <= |c| && c[p + BranchSize(b)] == OP_RECURSE ==> PartsAt(c, p + BranchSize(b), [Call]);
  }

  /** find_recurse() on code without calls, and on such code with one behind it. */
  method FindBehind(code: array<int>, start: nat, ghost b: Branch) returns (found: bool, x: nat)
    requires ShapedBranch(b) && BranchAt(code[..], start, b) && start + BranchSize(b) < code.Length
    requires var q := start + BranchSize(b);
             code[q] == OP_END || (code[q] == OP_RECURSE && q + 3 < code.Length && code[q + 3] == OP_END)
    ensures found <==> code[start + BranchSize(b)] == OP_RECURSE
    ensures found ==> x == start + BranchSize(b)
  {
    hide BranchAt, BranchSize, ShapedBranch, OpsTo, Calls, PartsAt, PartsSize, CallsIn;
    OnlyCode(code[..], start, b);
    ghost var q := start + BranchSize(b);
    ghost var e := if code[q] == OP_END then q else q + 3;
    AllCalls(code[..], start, if code[q] == OP_END then [Code(b)] else [Code(b), Call], e);
    found, x := FindRecurse(code, start, e);
    assert found ==> Calls(code[..], start, e)[0] == x;
  }

  /** adjust_recurse() leaves code without calls alone. */
  method AdjustNothing(code: array<int>, hwm: array<nat>, group: nat, d: nat, ghost b: Branch)
    requires ShapedBranch(b) && BranchAt(code[..], group, b) && group + BranchSize(b) < code.Length && code[group + BranchSize(b)] == OP_END
    modifies code, hwm
    ensures code[..] == old(code[..]) && hwm[..] == old(hwm[..])
  {
    hide BranchAt, BranchSize, ShapedBranch, OpsTo, Calls, Recurse.Run, PartsAt, PartsSize, CallsIn;
    OnlyCode(code[..], group, b);
    AllCalls(code[..], group, [Code(b)], group + BranchSize(b));
    RunNone(State(code[..], hwm[..]), group, d);
    AdjustRecurse(code, hwm, group, d, group + BranchSize(b));
  }

  /** Moving a group: each call written in it goes where it went, or waits where
      it is now. */
  method MoveParts(code: array<int>, hwm: array<nat>, group: nat, d: nat, e: nat, ghost xs: seq<Part>)
    requires PartsAt(code[..], group, xs) && e == group + PartsSize(xs) && e + d <= code.Length && d > 0 && code[e] == OP_END
    requires ListOf(hwm[..], CallsIn(xs, group)) && !Trap(hwm[..], CallsIn(xs, group), d)
    requires forall x :: x in CallsIn(xs, group) && !Waits(hwm[..], x) && x + 2 < code.Length ==>
               0 <= Get(code[..], x + 1) < e && !IsLink(CallsIn(xs, group), Get(code[..], x + 1))
    modifies code, hwm
    ensures multiset(hwm[..]) == multiset(Shifted(old(hwm[..]), d))
    ensures forall x :: x in CallsIn(xs, group) ==>
              if Waits(old(hwm[..]), x) then x + 2 < code.Length && x + d + 2 < code.Length && Get(code[..], x + d + 1) == Get(old(code[..]), x + 1)
              else SameTarget(old(code[..]), code[..], x, group, d)
  {
    hide PartsAt, PartsSize, CallsIn, OpsTo, Calls, ListOf, Trap, Shifted, SameTarget;
    AllCalls(code[..], group, xs, e);
    MoveGroup(code, hwm, group, d, e);
  }
}
