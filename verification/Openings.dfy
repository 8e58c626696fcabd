/** The numbers of capturing groups, told from the tokens of the pattern alone:
    one after the other in the order of the text, but the branches of a (?| group
    all begin with the same number, and behind it comes the next one after the
    highest in it. */
module Openings {
  import opened Parens

  /** The capturing parentheses, with and without a name, in the order of the text. */
  function Opened(toks: seq<Token>): seq<Opening> {
    if toks == [] then []
    else (if toks[0] == Open(Capture) || (toks[0].Open? && toks[0].k.Named?) then [toks[0].k] else []) + Opened(toks[1..])
  }

  lemma {:induction false} OpenedJoin(a: seq<Token>, b: seq<Token>)
    ensures Opened(a + b) == Opened(a) + Opened(b)
    decreases |a|
  {
    if a == [] {
      assert a + b == b;
    } else {
      assert (a + b)[1..] == a[1..] + b;
      OpenedJoin(a[1..], b);
    }
  }

  lemma OpenedOne(t: Token)
    ensures Opened([t]) == if t.Open? && (t.k.Capture? || t.k.Named?) then [t.k] else []
  {
    assert [t][1..] == [];
  }

  /** The group of an opening parenthesis, as number `n`. */
  function AsNumber(k: Opening, n: nat): Numbered {
    Numbered(n, k.Named?, if k.Named? then k.name else "")
  }

  /** One after the other, from `n` + 1 on. */
  function InOrder(opens: seq<Opening>, n: nat): (gs: seq<Numbered>)
    ensures |gs| == |opens| && forall k :: 0 <= k < |gs| ==> gs[k] == AsNumber(opens[k], n + 1 + k)
  {
    seq(|opens|, k requires 0 <= k < |opens| => AsNumber(opens[k], n + 1 + k))
  }

  lemma InOrderJoin(a: seq<Opening>, b: seq<Opening>, n: nat)
    ensures InOrder(a + b, n) == InOrder(a, n) + InOrder(b, n + |a|)
  {}

  // ---- What the text of a group opens ----

  lemma ElemOpened(e: Elem)
    ensures e.Plain? ==> Opened(ElemText(e)) == []
    ensures e.Paren? ==> Opened(ElemText(e)) == (if e.k.Capture? || e.k.Named? then [e.k] else []) + Opened(BranchesText(e.alts))
  {
    hide Opened;
    if e.Plain? {
      OpenedOne(Text);
    } else {
      OpenedOne(Open(e.k));
      OpenedOne(Close);
      OpenedJoin([Open(e.k)] + BranchesText(e.alts), [Close]);
      OpenedJoin([Open(e.k)], BranchesText(e.alts));
    }
  }

  lemma ElemsOpened(e: Elems)
    ensures Opened(ElemsText(e)) == if e.Done? then [] else Opened(ElemText(e.hd)) + Opened(ElemsText(e.tl))
  {
    if e.Then? { OpenedJoin(ElemText(e.hd), ElemsText(e.tl)); }
  }

  lemma BranchesOpened(b: Branches)
    ensures Opened(BranchesText(b)) == Opened(ElemsText(b.b)) + if b.Or? then Opened(BranchesText(b.rest)) else []
  {
    if b.Or? {
      OpenedOne(Bar);
      OpenedJoin(ElemsText(b.b) + [Bar], BranchesText(b.rest));
      OpenedJoin(ElemsText(b.b), [Bar]);
    }
  }

  /** No (?| in the text. */
  predicate NoReset(toks: seq<Token>) { Open(Reset) !in toks }

  lemma NoResetParts(e: Elem)
    requires NoReset(ElemText(e)) && e.Paren?
    ensures !e.k.Reset? && NoReset(BranchesText(e.alts))
  {
    assert ElemText(e)[0] == Open(e.k);
    forall t | t in BranchesText(e.alts) ensures t in ElemText(e) {}
  }

  // ---- Without (?| ----

  lemma {:induction false} ElemInOrder(e: Elem, n: nat)
    requires NoReset(ElemText(e))
    ensures ElemNumbers(e, n) == InOrder(Opened(ElemText(e)), n) && ElemEnd(e, n) == n + |Opened(ElemText(e))|
    decreases e
  {
    hide Opened, ElemText;
    ElemOpened(e);
    if e.Paren? {
      NoResetParts(e);
      var n' := if e.k.Capture? || e.k.Named? then n + 1 else n;
      BranchesInOrder(e.alts, n', n', n');
      InOrderJoin(if e.k.Capture? || e.k.Named? then [e.k] else [], Opened(BranchesText(e.alts)), n);
    }
  }

  lemma {:induction false} ElemsInOrder(e: Elems, n: nat)
    requires NoReset(ElemsText(e))
    ensures ElemsNumbers(e, n) == InOrder(Opened(ElemsText(e)), n) && ElemsEnd(e, n) == n + |Opened(ElemsText(e))|
    decreases e
  {
    hide Opened, ElemText, ElemNumbers, ElemEnd;
    ElemsOpened(e);
    if e.Then? {
      ElemInOrder(e.hd, n);
      ElemsInOrder(e.tl, ElemEnd(e.hd, n));
      InOrderJoin(Opened(ElemText(e.hd)), Opened(ElemsText(e.tl)), n);
    }
  }

  /** The k-th capturing parenthesis in the text gets the number `n` + k, and the
      count goes up by one for each of them. */
  lemma {:induction false} BranchesInOrder(b: Branches, n: nat, orig: nat, max: nat)
    requires NoReset(BranchesText(b)) && max <= n
    ensures BranchesNumbers(b, n, orig, false) == InOrder(Opened(BranchesText(b)), n)
    ensures BranchesEnd(b, n, orig, false, max) == n + |Opened(BranchesText(b))|
    decreases b
  {
    hide Opened, ElemsNumbers, ElemsEnd, ElemsText;
    BranchesOpened(b);
    ElemsInOrder(b.b, n);
    if b.Or? {
      var end := ElemsEnd(b.b, n);
      BranchesInOrder(b.rest, end, orig, end);
      InOrderJoin(Opened(ElemsText(b.b)), Opened(BranchesText(b.rest)), n);
    }
  }

  /** Asked for a number, find_parens() reports it if there are so many capturing
      parentheses; asked for a name, it reports which of them is the first with
      that name. */
  method FindInOrder(toks: seq<Token>, q: Query, ghost pattern: Branches) returns (rc: int)
    requires toks == BranchesText(pattern) && NoReset(toks)
    ensures q.ByNumber? ==> rc == if 1 <= q.number <= |Opened(toks)| then q.number else -1
    ensures q.ByName? ==> rc == FirstNamed(q.name, Opened(toks), 0)
  {
    hide Opened, BranchesText, BranchesNumbers, First;
    BranchesInOrder(pattern, 0, 0, 0);
    FirstInOrder(q, Opened(toks), 0);
    rc := FindParens(toks, q, pattern);
  }

  /** The place of the first parenthesis with this name, counted from `n` + 1 on;
      -1 if there is none. */
  function FirstNamed(name: Name, opens: seq<Opening>, n: nat): (r: int)
    ensures r == -1 || n < r <= n + |opens|
    ensures r == -1 <==> Named(name) !in opens
    ensures r > 0 ==> opens[r - 1 - n] == Named(name) && forall k :: 0 <= k < r - 1 - n ==> opens[k] != Named(name)
  {
    if opens == [] then -1 else if opens[0] == Named(name) then n + 1 else FirstNamed(name, opens[1..], n + 1)
  }

  lemma {:induction false} FirstInOrder(q: Query, opens: seq<Opening>, n: nat)
    ensures q.ByNumber? ==> First(q, InOrder(opens, n)) == if n < q.number <= n + |opens| then q.number else -1
    ensures q.ByName? ==> First(q, InOrder(opens, n)) == FirstNamed(q.name, opens, n)
    decreases |opens|
  {
    if opens != [] {
      assert InOrder(opens, n)[1..] == InOrder(opens[1..], n + 1);
      FirstInOrder(q, opens[1..], n + 1);
    }
  }

  // ---- With (?|, also nested ----

  /** The highest of these numbers, if above `n`. */
  function Highest(gs: seq<Numbered>, n: nat): (h: nat)
    ensures h >= n && (forall g :: g in gs ==> g.number <= h) && (h == n || exists g :: g in gs && g.number == h)
  {
    if gs == [] then n else Max(gs[0].number, Highest(gs[1..], n))
  }

  lemma {:induction false} HighestJoin(a: seq<Numbered>, b: seq<Numbered>, n: nat)
    ensures Highest(a + b, n) == Max(Highest(a, n), Highest(b, n))
    decreases |a|
  {
    if a == [] {
      assert a + b == b;
    } else {
      assert (a + b)[1..] == a[1..] + b;
      HighestJoin(a[1..], b, n);
    }
  }

  lemma {:induction false} HighestFrom(a: seq<Numbered>, n: nat, m: nat)
    ensures Highest(a, Max(n, m)) == Max(Highest(a, n), m)
    decreases |a|
  {
    if a != [] { HighestFrom(a[1..], n, m); }
  }

  /** Behind an element the count is the highest number used so far. */
  lemma {:induction false} ElemHighest(e: Elem, n: nat)
    ensures ElemEnd(e, n) == Highest(ElemNumbers(e, n), n)
    decreases e
  {
    if e.Paren? {
      var n' := Entered(e.k, n);
      var gs := BranchesNumbers(e.alts, n', n', e.k.Reset?);
      BranchesHighest(e.alts, n', n', e.k.Reset?, n');
      HighestJoin(Own(e.k, n), gs, n);
      HighestFrom(gs, n, n');
    }
  }

  lemma {:induction false} ElemsHighest(e: Elems, n: nat)
    ensures ElemsEnd(e, n) == Highest(ElemsNumbers(e, n), n)
    decreases e
  {
    hide ElemNumbers, ElemEnd;
    if e.Then? {
      var m := ElemEnd(e.hd, n);
      ElemHighest(e.hd, n);
      ElemsHighest(e.tl, m);
      HighestJoin(ElemNumbers(e.hd, n), ElemsNumbers(e.tl, m), n);
      HighestFrom(ElemsNumbers(e.tl, m), n, m);
    }
  }

  lemma {:induction false} BranchesHighest(b: Branches, n: nat, orig: nat, reset: bool, max: nat)
    requires if reset then orig <= max else max <= n
    ensures BranchesEnd(b, n, orig, reset, max) == Highest(BranchesNumbers(b, n, orig, reset), if reset then max else n)
    decreases b
  {
    hide ElemsNumbers, ElemsEnd, Highest;
    var start := if reset then orig else n;
    var end := ElemsEnd(b.b, start);
    var a := ElemsNumbers(b.b, start);
    ElemsHighest(b.b, start);
    HighestFrom(a, start, max);
    if b.Or? {
      var c := BranchesNumbers(b.rest, end, orig, reset);
      BranchesHighest(b.rest, end, orig, reset, Max(max, end));
      HighestJoin(a, c, if reset then max else n);
      HighestFrom(c, if reset then max else n, end);
    }
  }

  /** Every capturing parenthesis of the text has its entry, in the order of the
      text, and the first of them gets the next number. */
  ghost predicate Lists(gs: seq<Numbered>, opens: seq<Opening>, n: nat) {
    && |gs| == |opens| && (gs != [] ==> gs[0].number == n + 1)
    && forall k :: 0 <= k < |gs| ==> gs[k] == AsNumber(opens[k], gs[k].number)
  }

  lemma ListsJoin(a: seq<Numbered>, b: seq<Numbered>, x: seq<Opening>, y: seq<Opening>, n: nat, m: nat)
    requires Lists(a, x, n) && Lists(b, y, m) && (a == [] ==> n == m)
    ensures Lists(a + b, x + y, n)
  {}

  lemma {:induction false} ElemLists(e: Elem, n: nat)
    ensures Lists(ElemNumbers(e, n), Opened(ElemText(e)), n)
    decreases e
  {
    hide Opened, ElemText;
    ElemOpened(e);
    if e.Paren? {
      var n' := Entered(e.k, n);
      BranchesList(e.alts, n', n', e.k.Reset?);
      ListsJoin(Own(e.k, n), BranchesNumbers(e.alts, n', n', e.k.Reset?),
                if e.k.Capture? || e.k.Named? then [e.k] else [], Opened(BranchesText(e.alts)), n, n');
    }
  }

  lemma {:induction false} ElemsList(e: Elems, n: nat)
    ensures Lists(ElemsNumbers(e, n), Opened(ElemsText(e)), n)
    decreases e
  {
    hide Opened, ElemText, ElemNumbers, ElemEnd;
    ElemsOpened(e);
    if e.Then? {
      ElemLists(e.hd, n);
      ElemHighest(e.hd, n);
      ElemsList(e.tl, ElemEnd(e.hd, n));
      ListsJoin(ElemNumbers(e.hd, n), ElemsNumbers(e.tl, ElemEnd(e.hd, n)), Opened(ElemText(e.hd)), Opened(ElemsText(e.tl)), n, ElemEnd(e.hd, n));
    }
  }

  lemma {:induction false} BranchesList(b: Branches, n: nat, orig: nat, reset: bool)
    requires reset ==> n >= orig
    ensures Lists(BranchesNumbers(b, n, orig, reset), Opened(BranchesText(b)), if reset then orig else n)
    decreases b
  {
    hide Opened, ElemsText, ElemsNumbers, ElemsEnd;
    var start := if reset then orig else n;
    BranchesOpened(b);
    ElemsList(b.b, start);
    ElemsHighest(b.b, start);
    if b.Or? {
      var end := ElemsEnd(b.b, start);
      BranchesList(b.rest, end, orig, reset);
      ListsJoin(ElemsNumbers(b.b, start), BranchesNumbers(b.rest, end, orig, reset),
                Opened(ElemsText(b.b)), Opened(BranchesText(b.rest)), start, if reset then orig else end);
    }
  }

  /** What follows an element, a (?| group above all, starts after the highest
      number used in it. */
  lemma GoesOn(hd: Elem, tl: Elems, n: nat)
    ensures var a := ElemNumbers(hd, n);
            exists b :: ElemsNumbers(Then(hd, tl), n) == a + b && Lists(b, Opened(ElemsText(tl)), Highest(a, n))
  {
    hide ElemNumbers, ElemEnd, Opened, Lists;
    ElemHighest(hd, n);
    ElemsList(tl, ElemEnd(hd, n));
    var b := ElemsNumbers(tl, ElemEnd(hd, n));
    assert ElemsNumbers(Then(hd, tl), n) == ElemNumbers(hd, n) + b;
  }

  function Nth(b: Branches, i: nat): Elems
    requires i < Count(b)
  {
    if i == 0 then b.b else Nth(b.rest, i - 1)
  }

  function Count(b: Branches): nat { if b.Only? then 1 else 1 + Count(b.rest) }

  /** The text of the branches before the i-th. */
  function TextBefore(b: Branches, i: nat): seq<Token>
    requires i < Count(b)
  {
    if i == 0 then [] else ElemsText(b.b) + [Bar] + TextBefore(b.rest, i - 1)
  }

  lemma BeforeNext(b: Branches, i: nat)
    requires 0 < i < Count(b)
    ensures b.Or? && Opened(TextBefore(b, i)) == Opened(ElemsText(b.b)) + Opened(TextBefore(b.rest, i - 1))
  {
    OpenedOne(Bar);
    OpenedJoin(ElemsText(b.b) + [Bar], TextBefore(b.rest, i - 1));
    OpenedJoin(ElemsText(b.b), [Bar]);
  }

  /** `part` stands in `gs` from the place `lo` on. */
  predicate Placed(gs: seq<Numbered>, lo: nat, part: seq<Numbered>) {
    lo + |part| <= |gs| && gs[lo..lo + |part|] == part
  }

  lemma PlacedFirst(a: seq<Numbered>, c: seq<Numbered>)
    ensures Placed(a + c, 0, a) && Placed(a, 0, a)
  {}

  lemma PlacedLater(a: seq<Numbered>, c: seq<Numbered>, lo: nat, part: seq<Numbered>)
    requires Placed(c, lo, part)
    ensures Placed(a + c, |a| + lo, part)
  {}

  lemma NumbersSplit(b: Branches, n: nat, last: nat)
    ensures var a, end := ElemsNumbers(b.b, n), ElemsEnd(b.b, n);
            BranchesNumbers(b, last, n, true) == if b.Or? then a + BranchesNumbers(b.rest, end, n, true) else a
  {
    hide ElemsNumbers, ElemsEnd;
  }

  lemma NthOf(b: Branches, i: nat)
    requires i < Count(b)
    ensures i == 0 ==> Nth(b, i) == b.b && TextBefore(b, i) == []
    ensures i > 0 ==> b.Or? && i - 1 < Count(b.rest) && Nth(b, i) == Nth(b.rest, i - 1)
  {}

  lemma PlacedBehind(b: Branches, i: nat, n: nat, last: nat)
    requires 0 < i < Count(b) && b.Or?
    requires i - 1 < Count(b.rest) &&
             Placed(BranchesNumbers(b.rest, ElemsEnd(b.b, n), n, true), |Opened(TextBefore(b.rest, i - 1))|, ElemsNumbers(Nth(b.rest, i - 1), n))
    ensures Placed(BranchesNumbers(b, last, n, true), |Opened(TextBefore(b, i))|, ElemsNumbers(Nth(b, i), n))
  {
    hide Opened, ElemsText, ElemsNumbers, ElemsEnd, Lists, Placed, BranchesNumbers, TextBefore, Nth, Count;
    NthOf(b, i);
    NumbersSplit(b, n, last);
    ElemsList(b.b, n);
    ListsLength(ElemsNumbers(b.b, n), Opened(ElemsText(b.b)), n);
    BeforeNext(b, i);
    PlacedLater(ElemsNumbers(b.b, n), BranchesNumbers(b.rest, ElemsEnd(b.b, n), n, true),
                |Opened(TextBefore(b.rest, i - 1))|, ElemsNumbers(Nth(b.rest, i - 1), n));
  }

  lemma {:induction false} BranchPlaced(b: Branches, i: nat, n: nat, last: nat)
    requires i < Count(b)
    ensures Placed(BranchesNumbers(b, last, n, true), |Opened(TextBefore(b, i))|, ElemsNumbers(Nth(b, i), n))
    decreases i
  {
    hide Opened, ElemsText, ElemsNumbers, ElemsEnd, Placed, BranchesNumbers, TextBefore, Nth, Count;
    NthOf(b, i);
    if i == 0 {
      OpenedNone();
      NumbersSplit(b, n, last);
      PlacedFirst(ElemsNumbers(b.b, n), if b.Or? then BranchesNumbers(b.rest, ElemsEnd(b.b, n), n, true) else []);
    } else {
      BranchPlaced(b.rest, i - 1, n, ElemsEnd(b.b, n));
      PlacedBehind(b, i, n, last);
    }
  }

  /** Each branch of a (?| group, when `n` numbers were used before it, is
      numbered as if it were the only one: the first capturing parenthesis in it
      gets n + 1, and if it has no (?| of its own the k-th gets n + k. */
  lemma BranchStarts(b: Branches, i: nat, n: nat)
    requires i < Count(b)
    ensures var part, opens := ElemsNumbers(Nth(b, i), n), Opened(ElemsText(Nth(b, i)));
            && Placed(BranchesNumbers(b, n, n, true), |Opened(TextBefore(b, i))|, part) && Lists(part, opens, n)
            && (NoReset(ElemsText(Nth(b, i))) ==> part == InOrder(opens, n))
  {
    hide Opened, ElemsText, ElemsNumbers, BranchesNumbers, Lists, Placed;
    BranchPlaced(b, i, n, n);
    ElemsList(Nth(b, i), n);
    if NoReset(ElemsText(Nth(b, i))) { ElemsInOrder(Nth(b, i), n); }
  }

  lemma OpenedNone()
    ensures Opened([]) == []
  {}

  lemma ListsLength(gs: seq<Numbered>, opens: seq<Opening>, n: nat)
    requires Lists(gs, opens, n)
    ensures |gs| == |opens|
  {}

  // ---- One (?| group, what is before it and what comes behind ----

  function Join(a: Elems, b: Elems): Elems {
    if a.Done? then b else Then(a.hd, Join(a.tl, b))
  }

  lemma {:induction false} JoinNumbers(a: Elems, b: Elems, n: nat)
    ensures ElemsNumbers(Join(a, b), n) == ElemsNumbers(a, n) + ElemsNumbers(b, ElemsEnd(a, n))
    ensures ElemsText(Join(a, b)) == ElemsText(a) + ElemsText(b)
    decreases a
  {
    hide ElemNumbers, ElemEnd, ElemText;
    if a.Then? { JoinNumbers(a.tl, b, ElemEnd(a.hd, n)); }
  }

  /** The most capturing parentheses in one branch. */
  function Widest(b: Branches): nat {
    var w := |Opened(ElemsText(b.b))|;
    if b.Only? then w else Max(w, Widest(b.rest))
  }

  /** No nested (?| in the branches. */
  predicate Flat(b: Branches) {
    NoReset(ElemsText(b.b)) && (b.Or? ==> Flat(b.rest))
  }

  lemma {:induction false} ResetEnd(b: Branches, n: nat, last: nat, max: nat)
    requires Flat(b) && n <= max
    ensures BranchesEnd(b, last, n, true, max) == Max(max, n + Widest(b))
    decreases b
  {
    hide Opened, ElemsText, ElemsEnd, NoReset;
    ElemsInOrder(b.b, n);
    if b.Or? {
      var end := ElemsEnd(b.b, n);
      ResetEnd(b.rest, n, end, Max(max, end));
    }
  }

  /** The name is in the i-th branch and in none before it. */
  predicate NamedFirst(name: Name, b: Branches, i: nat) {
    i < Count(b) && Named(name) in Opened(ElemsText(Nth(b, i))) &&
    forall j :: 0 <= j < i ==> Named(name) !in Opened(ElemsText(Nth(b, j)))
  }

  predicate NamedNowhere(name: Name, b: Branches) {
    forall j :: 0 <= j < Count(b) ==> Named(name) !in Opened(ElemsText(Nth(b, j)))
  }

  lemma {:induction false} FirstInReset(name: Name, b: Branches, i: nat, n: nat, last: nat)
    requires Flat(b) && (NamedFirst(name, b, i) || NamedNowhere(name, b))
    ensures First(ByName(name), BranchesNumbers(b, last, n, true)) ==
            if NamedFirst(name, b, i) then FirstNamed(name, Opened(ElemsText(Nth(b, i))), n) else -1
    decreases b
  {
    hide Opened, ElemsText, ElemsNumbers, ElemsEnd, NoReset, First, FirstNamed;
    var a, opens := ElemsNumbers(b.b, n), Opened(ElemsText(b.b));
    assert Nth(b, 0) == b.b;
    ElemsInOrder(b.b, n);
    FirstInOrder(ByName(name), opens, n);
    NamedOrNot(name, opens, n);
    if b.Or? {
      var end := ElemsEnd(b.b, n);
      var c := BranchesNumbers(b.rest, end, n, true);
      FirstJoin(ByName(name), a, c);
      if !(NamedFirst(name, b, i) && i == 0) {
        forall j | 0 <= j < Count(b.rest) ensures Nth(b.rest, j) == Nth(b, j + 1) {}
        if NamedFirst(name, b, i) {
          NamedRest(name, b, i);
          FirstInReset(name, b.rest, i - 1, n, end);
        } else {
          assert NamedNowhere(name, b.rest);
          assert !NamedFirst(name, b.rest, 0);
          FirstInReset(name, b.rest, 0, n, end);
        }
      }
    }
  }

  lemma NamedRest(name: Name, b: Branches, i: nat)
    requires NamedFirst(name, b, i) && i > 0
    ensures b.Or? && NamedFirst(name, b.rest, i - 1)
  {
    forall j | 0 <= j < Count(b.rest) ensures Nth(b.rest, j) == Nth(b, j + 1) {}
  }

  lemma NamedOrNot(name: Name, opens: seq<Opening>, n: nat)
    ensures FirstNamed(name, opens, n) >= 0 <==> Named(name) in opens
    ensures FirstNamed(name, opens, n) >= -1
  {}

  /** find_parens() on a text with one (?| group in it: a group in one of its
      branches has a number that counts the parentheses before the (?| and those
      in the branch; one behind it counts those of the widest branch. */
  method FindAround(toks: seq<Token>, name: Name, ghost pre: Elems, ghost alts: Branches, ghost post: Elems, ghost i: nat) returns (rc: int)
    requires toks == ElemsText(pre) + ([Open(Reset)] + BranchesText(alts) + [Close]) + ElemsText(post)
    requires NoReset(ElemsText(pre)) && Flat(alts) && NoReset(ElemsText(post))
    ensures var n := |Opened(ElemsText(pre))|;
            && (Named(name) in Opened(ElemsText(pre)) ==> rc == FirstNamed(name, Opened(ElemsText(pre)), 0))
            && (Named(name) !in Opened(ElemsText(pre)) && NamedFirst(name, alts, i) ==>
                  rc == FirstNamed(name, Opened(ElemsText(Nth(alts, i))), n))
            && (Named(name) !in Opened(ElemsText(pre)) && NamedNowhere(name, alts) ==>
                  rc == FirstNamed(name, Opened(ElemsText(post)), n + Widest(alts)))
  {
    hide Opened, ElemsText, BranchesText, ElemsNumbers, ElemsEnd, BranchesNumbers, BranchesEnd, NoReset, First, FirstNamed, Flat, NamedFirst, NamedNowhere, Widest;
    ghost var q, n := ByName(name), |Opened(ElemsText(pre))|;
    ghost var reset := Paren(Reset, alts);
    ghost var rest := Then(reset, post);
    ghost var pattern := Only(Join(pre, rest));
    ghost var m := n + Widest(alts);
    AroundText(pre, alts, post);
    ElemsInOrder(pre, 0);
    ElemsInOrder(post, m);
    ResetEnd(alts, n, n, n);
    JoinNumbers(pre, rest, 0);
    RestNumbered(alts, post, n);
    FirstJoin(q, ElemsNumbers(pre, 0), ElemsNumbers(rest, n));
    FirstJoin(q, BranchesNumbers(alts, n, n, true), ElemsNumbers(post, m));
    FirstInOrder(q, Opened(ElemsText(pre)), 0);
    FirstInOrder(q, Opened(ElemsText(post)), m);
    NamedOrNot(name, Opened(ElemsText(pre)), 0);
    if NamedFirst(name, alts, i) || NamedNowhere(name, alts) {
      FirstInReset(name, alts, i, n, n);
      NamedThere(name, alts, i, n);
    }
    PatternNumbers(pre, rest);
    rc := FindParens(toks, ByName(name), pattern);
  }

  lemma PatternNumbers(pre: Elems, rest: Elems)
    ensures BranchesNumbers(Only(Join(pre, rest)), 0, 0, false) == ElemsNumbers(Join(pre, rest), 0)
    ensures BranchesText(Only(Join(pre, rest))) == ElemsText(Join(pre, rest))
  {}

  lemma NamedThere(name: Name, b: Branches, i: nat, n: nat)
    ensures NamedFirst(name, b, i) ==> i < Count(b) && FirstNamed(name, Opened(ElemsText(Nth(b, i))), n) >= 0 && !NamedNowhere(name, b)
  {}

  lemma RestNumbered(alts: Branches, post: Elems, n: nat)
    ensures ElemsNumbers(Then(Paren(Reset, alts), post), n) ==
            BranchesNumbers(alts, n, n, true) + ElemsNumbers(post, BranchesEnd(alts, n, n, true, n))
  {
    hide BranchesNumbers, BranchesEnd;
    assert ElemNumbers(Paren(Reset, alts), n) == BranchesNumbers(alts, n, n, true) by {
      assert Own(Reset, n) == [];
      assert [] + BranchesNumbers(alts, n, n, true) == BranchesNumbers(alts, n, n, true);
    }
  }

  lemma AroundText(pre: Elems, alts: Branches, post: Elems)
    ensures ElemsText(Join(pre, Then(Paren(Reset, alts), post))) ==
            ElemsText(pre) + ([Open(Reset)] + BranchesText(alts) + [Close]) + ElemsText(post)
  {
    hide BranchesText;
    JoinNumbers(pre, Then(Paren(Reset, alts), post), 0);
    assert ElemsText(Then(Paren(Reset, alts), post)) == ([Open(Reset)] + BranchesText(alts) + [Close]) + ElemsText(post);
  }
}
