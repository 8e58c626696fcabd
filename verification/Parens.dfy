/** The two ways of numbering capturing groups: compile_branch() and
    compile_regex() count them while compiling, find_parens() counts them by
    scanning the pattern's text. With (?| groups the branches share numbers. */
module Parens {

  type Name = string

  datatype Opening = Capture | Named(name: Name) | Group | Reset

  /** The pattern's text; an escape, a class or a comment is one `Text`. */
  datatype Token = Text | Open(k: Opening) | Close | Bar

  datatype Elem = Plain | Paren(k: Opening, alts: Branches)
  datatype Elems = Done | Then(hd: Elem, tl: Elems)
  datatype Branches = Only(b: Elems) | Or(b: Elems, rest: Branches)

  // ---- The text of a pattern ----

  function ElemText(e: Elem): (t: seq<Token>)
    ensures |t| > 0
    decreases e
  {
    match e
    case Plain => [Text]
    case Paren(k, alts) => [Open(k)] + BranchesText(alts) + [Close]
  }

  function ElemsText(e: Elems): seq<Token>
    decreases e
  {
    match e
    case Done => []
    case Then(hd, tl) => ElemText(hd) + ElemsText(tl)
  }

  function BranchesText(b: Branches): seq<Token>
    decreases b
  {
    match b
    case Only(b) => ElemsText(b)
    case Or(b, rest) => ElemsText(b) + [Bar] + BranchesText(rest)
  }

  // ---- The numbers that compiling assigns ----

  /** A capturing group: its number, and its name if it has one. */
  datatype Numbered = Numbered(number: nat, named: bool, name: Name)

  predicate Captures(k: Opening) { k.Capture? || k.Named? }

  function Max(a: nat, b: nat): nat { if a < b then b else a }

  /** cd->bracount when the group is entered, and the entry of the group itself. */
  function Entered(k: Opening, n: nat): nat { if Captures(k) then n + 1 else n }

  function Own(k: Opening, n: nat): seq<Numbered> {
    if k.Capture? then [Numbered(n + 1, false, "")]
    else if k.Named? then [Numbered(n + 1, true, k.name)]
    else []
  }

  /** cd->bracount behind an element when it is `n` before it. */
  function ElemEnd(e: Elem, n: nat): nat
    decreases e
  {
    match e
    case Plain => n
    case Paren(k, alts) => BranchesEnd(alts, Entered(k, n), Entered(k, n), k.Reset?, Entered(k, n))
  }

  function ElemsEnd(e: Elems, n: nat): nat
    decreases e
  {
    match e
    case Done => n
    case Then(hd, tl) => ElemsEnd(tl, ElemEnd(hd, n))
  }

  /** compile_regex(): `orig` is the count at its start, `max` the highest so far. */
  function BranchesEnd(b: Branches, n: nat, orig: nat, reset: bool, max: nat): nat
    decreases b
  {
    var end := ElemsEnd(b.b, if reset then orig else n);
    match b
    case Only(_) => Max(max, end)
    case Or(_, rest) => BranchesEnd(rest, end, orig, reset, Max(max, end))
  }

  function ElemNumbers(e: Elem, n: nat): seq<Numbered>
    decreases e
  {
    match e
    case Plain => []
    case Paren(k, alts) => Own(k, n) + BranchesNumbers(alts, Entered(k, n), Entered(k, n), k.Reset?)
  }

  function ElemsNumbers(e: Elems, n: nat): seq<Numbered>
    decreases e
  {
    match e
    case Done => []
    case Then(hd, tl) => ElemNumbers(hd, n) + ElemsNumbers(tl, ElemEnd(hd, n))
  }

  function BranchesNumbers(b: Branches, n: nat, orig: nat, reset: bool): seq<Numbered>
    decreases b
  {
    var start := if reset then orig else n;
    match b
    case Only(b) => ElemsNumbers(b, start)
    case Or(b, rest) => ElemsNumbers(b, start) + BranchesNumbers(rest, ElemsEnd(b, start), orig, reset)
  }

  /** Counting never goes back. */
  lemma {:induction false} ElemGrows(e: Elem, n: nat)
    ensures ElemEnd(e, n) >= n
    decreases e
  {
    if e.Paren? { BranchesGrow(e.alts, Entered(e.k, n), Entered(e.k, n), e.k.Reset?, Entered(e.k, n)); }
  }

  lemma {:induction false} ElemsGrow(e: Elems, n: nat)
    ensures ElemsEnd(e, n) >= n
    decreases e
  {
    if e.Then? {
      ElemGrows(e.hd, n);
      ElemsGrow(e.tl, ElemEnd(e.hd, n));
    }
  }

  lemma {:induction false} BranchesGrow(b: Branches, n: nat, orig: nat, reset: bool, max: nat)
    ensures BranchesEnd(b, n, orig, reset, max) >= max
    decreases b
  {
    if b.Or? {
      var end := ElemsEnd(b.b, if reset then orig else n);
      BranchesGrow(b.rest, end, orig, reset, Max(max, end));
    }
  }

  // ---- What is looked for ----

  datatype Query = ByName(name: Name) | ByNumber(number: nat)

  predicate Hits(q: Query, g: Numbered) {
    match q
    case ByName(name) => g.named && g.name == name
    case ByNumber(number) => g.number == number
  }

  /** The number of the first group that is asked for; -1 if there is none. */
  function First(q: Query, gs: seq<Numbered>): int {
    if gs == [] then -1 else if Hits(q, gs[0]) then gs[0].number else First(q, gs[1..])
  }

  lemma {:induction false} FirstJoin(q: Query, a: seq<Numbered>, b: seq<Numbered>)
    ensures First(q, a + b) == if First(q, a) >= 0 then First(q, a) else First(q, b)
    ensures First(q, a) >= -1
    decreases |a|
  {
    if a == [] {
      assert a + b == b;
    } else {
      assert (a + b)[1..] == a[1..] + b;
      FirstJoin(q, a[1..], b);
    }
  }

  // ---- Scanning the text ----

  predicate TextAt(toks: seq<Token>, p: nat, t: seq<Token>) {
    p + |t| <= |toks| && toks[p..p + |t|] == t
  }

  lemma TextParts(toks: seq<Token>, p: nat, a: seq<Token>, b: seq<Token>)
    ensures TextAt(toks, p, a + b) <==> TextAt(toks, p, a) && TextAt(toks, p + |a|, b)
  {
    if TextAt(toks, p, a + b) {
      assert toks[p..p + |a|] == (a + b)[..|a|];
      assert toks[p + |a|..p + |a| + |b|] == (a + b)[|a|..];
    }
    if TextAt(toks, p, a) && TextAt(toks, p + |a|, b) {
      assert toks[p..p + |a + b|] == toks[p..p + |a|] + toks[p + |a|..p + |a| + |b|];
    }
  }

  lemma OneText(toks: seq<Token>, p: nat, t: Token)
    requires TextAt(toks, p, [t])
    ensures p < |toks| && toks[p] == t
  {
    assert toks[p..p + 1][0] == t;
  }

  /** The rest of a group, its closing parenthesis included: first the rest `e`
      of a branch, then the other branches. */
  datatype Rest = Rest(e: Elems, more: bool, b: Branches)

  function RestText(r: Rest): seq<Token> {
    ElemsText(r.e) + if r.more then [Bar] + BranchesText(r.b) else []
  }

  function RestNumbers(r: Rest, n: nat, orig: nat, reset: bool): seq<Numbered> {
    ElemsNumbers(r.e, n) + if r.more then BranchesNumbers(r.b, ElemsEnd(r.e, n), orig, reset) else []
  }

  function RestEnd(r: Rest, n: nat, orig: nat, reset: bool, max: nat): nat {
    var end := ElemsEnd(r.e, n);
    if r.more then BranchesEnd(r.b, end, orig, reset, Max(max, end)) else Max(max, end)
  }

  function Start(b: Branches): Rest {
    if b.Or? then Rest(b.b, true, b.rest) else Rest(b.b, false, b)
  }

  lemma StartSame(b: Branches, n: nat, orig: nat, reset: bool, max: nat)
    ensures var n' := if reset then orig else n;
            && BranchesText(b) == RestText(Start(b))
            && BranchesNumbers(b, n, orig, reset) == RestNumbers(Start(b), n', orig, reset)
            && BranchesEnd(b, n, orig, reset, max) == RestEnd(Start(b), n', orig, reset, max)
  {
    if b.Or? {
      assert ElemsText(b.b) + [Bar] + BranchesText(b.rest) == ElemsText(b.b) + ([Bar] + BranchesText(b.rest));
    } else {
      assert ElemsText(b.b) + [] == ElemsText(b.b);
      assert ElemsNumbers(b.b, if reset then orig else n) + [] == ElemsNumbers(b.b, if reset then orig else n);
    }
  }

  /** What comes next in the text of a rest. */
  lemma RestStep(toks: seq<Token>, p: nat, r: Rest, tail: seq<Token>)
    requires TextAt(toks, p, RestText(r) + tail)
    ensures r.e.Then? ==>
              TextAt(toks, p, ElemText(r.e.hd)) && TextAt(toks, p + |ElemText(r.e.hd)|, RestText(Rest(r.e.tl, r.more, r.b)) + tail)
    ensures r.e.Done? && r.more ==> p < |toks| && toks[p] == Bar && TextAt(toks, p + 1, RestText(Start(r.b)) + tail)
    ensures r.e.Done? && !r.more ==> TextAt(toks, p, tail)
  {
    if r.e.Then? {
      var a, b := ElemText(r.e.hd), RestText(Rest(r.e.tl, r.more, r.b)) + tail;
      assert RestText(r) + tail == a + b;
      TextParts(toks, p, a, b);
    } else if r.more {
      StartSame(r.b, 0, 0, false, 0);
      assert RestText(r) + tail == [Bar] + (RestText(Start(r.b)) + tail);
      TextParts(toks, p, [Bar], RestText(Start(r.b)) + tail);
      OneText(toks, p, Bar);
    } else {
      assert RestText(r) + tail == tail;
    }
  }

  /** The same for the numbers. */
  lemma NumbersStep(q: Query, r: Rest, n: nat, orig: nat, reset: bool, max: nat)
    ensures r.e.Then? ==>
              var r' := Rest(r.e.tl, r.more, r.b); var n' := ElemEnd(r.e.hd, n);
              && First(q, RestNumbers(r, n, orig, reset)) ==
                 (if First(q, ElemNumbers(r.e.hd, n)) >= 0 then First(q, ElemNumbers(r.e.hd, n)) else First(q, RestNumbers(r', n', orig, reset)))
              && RestEnd(r, n, orig, reset, max) == RestEnd(r', n', orig, reset, max)
    ensures r.e.Done? && r.more ==>
              var n' := if reset then orig else n;
              && First(q, RestNumbers(r, n, orig, reset)) == First(q, RestNumbers(Start(r.b), n', orig, reset))
              && RestEnd(r, n, orig, reset, max) == RestEnd(Start(r.b), n', orig, reset, Max(max, n))
    ensures r.e.Done? && !r.more ==> First(q, RestNumbers(r, n, orig, reset)) == -1 && RestEnd(r, n, orig, reset, max) == Max(max, n)
  {
    if r.e.Then? {
      var r', n' := Rest(r.e.tl, r.more, r.b), ElemEnd(r.e.hd, n);
      var more := if r.more then BranchesNumbers(r.b, ElemsEnd(r.e, n), orig, reset) else [];
      assert ElemNumbers(r.e.hd, n) + ElemsNumbers(r.e.tl, n') + more == ElemNumbers(r.e.hd, n) + (ElemsNumbers(r.e.tl, n') + more);
      FirstJoin(q, ElemNumbers(r.e.hd, n), RestNumbers(r', n', orig, reset));
    } else if r.more {
      StartSame(r.b, n, orig, reset, Max(max, n));
      assert RestNumbers(r, n, orig, reset) == BranchesNumbers(r.b, n, orig, reset);
    }
  }

  /** An element starts with its opening parenthesis, if it has one. */
  lemma ElemStart(toks: seq<Token>, p: nat, e: Elem)
    requires TextAt(toks, p, ElemText(e))
    ensures p < |toks| && (e.Plain? ==> toks[p] == Text && |ElemText(e)| == 1)
    ensures e.Paren? ==> toks[p] == Open(e.k) && TextAt(toks, p + 1, RestText(Start(e.alts)) + [Close]) && |ElemText(e)| == 2 + |RestText(Start(e.alts))|
  {
    if e.Plain? {
      OneText(toks, p, Text);
    } else {
      StartSame(e.alts, 0, 0, false, 0);
      assert ElemText(e) == [Open(e.k)] + (RestText(Start(e.alts)) + [Close]);
      TextParts(toks, p, [Open(e.k)], RestText(Start(e.alts)) + [Close]);
      OneText(toks, p, Open(e.k));
    }
  }

  /** A parenthesis counts itself before what is inside. */
  lemma ParenNumbers(q: Query, e: Elem, n: nat)
    requires e.Paren?
    ensures var n' := Entered(e.k, n);
            && First(q, ElemNumbers(e, n)) ==
               (if Captures(e.k) && Hits(q, Own(e.k, n)[0]) then n + 1 else First(q, RestNumbers(Start(e.alts), n', n', e.k.Reset?)))
            && ElemEnd(e, n) == RestEnd(Start(e.alts), n', n', e.k.Reset?, n')
  {
    var n' := Entered(e.k, n);
    StartSame(e.alts, n', n', e.k.Reset?, n');
    FirstJoin(q, Own(e.k, n), BranchesNumbers(e.alts, n', n', e.k.Reset?));
    if Captures(e.k) { assert Own(e.k, n)[1..] == []; }
  }

  lemma OwnNumber(q: Query, k: Opening, n: nat)
    ensures Captures(k) ==>
              |Own(k, n)| == 1 &&
              (Hits(q, Own(k, n)[0]) <==> (q.ByNumber? && n + 1 == q.number) || (q.ByName? && k.Named? && k.name == q.name))
  {}

  lemma RestSize(r: Rest)
    ensures r.e.Then? ==> |RestText(r)| == |ElemText(r.e.hd)| + |RestText(Rest(r.e.tl, r.more, r.b))| && |ElemText(r.e.hd)| > 0
    ensures r.e.Done? && r.more ==> |RestText(r)| == 1 + |RestText(Start(r.b))|
    ensures r.e.Done? && !r.more ==> |RestText(r)| == 0
  {
    if r.e.Done? && r.more { StartSame(r.b, 0, 0, false, 0); }
  }

  lemma PlainNumbers(q: Query, e: Elem, n: nat)
    ensures e.Plain? ==> First(q, ElemNumbers(e, n)) == -1 && ElemEnd(e, n) == n
  {}

  lemma TextFits(toks: seq<Token>, p: nat, t: seq<Token>)
    requires TextAt(toks, p, t)
    ensures p + |t| <= |toks|
  {}

  /** find_parens_sub(): from an opening parenthesis to its closing one, or from
      elsewhere to the end of the text. */
  method FindParensSub(toks: seq<Token>, start: nat, q: Query, count0: nat, ghost e: Elem, ghost r0: Rest)
    returns (rc: int, ptr: nat, count: nat)
    requires start < |toks| && toks[start].Open? ==> e.Paren? && TextAt(toks, start, ElemText(e))
    requires !(start < |toks| && toks[start].Open?) ==> TextAt(toks, start, RestText(r0) + []) && start + |RestText(r0)| == |toks|
    ensures rc == -1 || rc > 0
    ensures start < |toks| && toks[start].Open? ==>
              && rc == First(q, ElemNumbers(e, count0))
              && (rc == -1 ==> ptr == start + |ElemText(e)| - 1 < |toks| && count == ElemEnd(e, count0))
    ensures !(start < |toks| && toks[start].Open?) ==>
              rc == First(q, RestNumbers(r0, count0, 0, false)) && (rc == -1 ==> ptr == |toks|)
    decreases |toks| - start
  {
    hide TextAt, ElemText, RestText, ElemNumbers, RestNumbers, RestEnd, ElemEnd, First, Own, Start;
    ptr, count := start, count0;
    var start_count, hwm_count, dup_parens := count, count, false;
    ghost var r, tail: seq<Token>, orig: nat, max: nat := r0, [], 0, 0;
    ghost var open := start < |toks| && toks[start].Open?;
    if ptr < |toks| && toks[ptr].Open? {
      ElemStart(toks, start, e);
      ParenNumbers(q, e, count0);
      OwnNumber(q, e.k, count0);
      var k := toks[ptr].k;
      if Captures(k) {
        count := count + 1;
        if q.ByNumber? && count == q.number { return count, ptr, count; }
        if q.ByName? && k.Named? && k.name == q.name { return count, ptr, count; }
      }
      dup_parens := k.Reset?;
      ptr := ptr + 1;
      r, tail, orig, max := Start(e.alts), [Close], count, count;
    }
    ghost var whole, end := First(q, RestNumbers(r, count, orig, dup_parens)), RestEnd(r, count, orig, dup_parens, max);
    while ptr < |toks|
      invariant start <= ptr <= |toks| && (open ==> start < ptr) && tail == if open then [Close] else []
      invariant TextAt(toks, ptr, RestText(r) + tail) && (!open ==> ptr + |RestText(r)| == |toks|)
      invariant open ==> ptr + |RestText(r)| == start + |ElemText(e)| - 1
      invariant First(q, RestNumbers(r, count, orig, dup_parens)) == whole && RestEnd(r, count, orig, dup_parens, max) == end
      invariant if dup_parens then orig == start_count && max == hwm_count && open else max <= count
      invariant ptr == start ==> !(start < |toks| && toks[start].Open?)
      decreases |toks| - ptr
    {
      RestStep(toks, ptr, r, tail);
      NumbersStep(q, r, count, orig, dup_parens, max);
      RestSize(r);
      if r.e.Then? {
        ElemStart(toks, ptr, r.e.hd);
        PlainNumbers(q, r.e.hd, count);
        ElemGrows(r.e.hd, count);
      }
      if tail != [] && r.e.Done? && !r.more { OneText(toks, ptr, Close); }
      if toks[ptr].Open? {
        var p;
        rc, p, count := FindParensSub(toks, ptr, q, count, r.e.hd, r);
        if rc > 0 { ptr := p; return; }
        ptr := p;
        r := Rest(r.e.tl, r.more, r.b);
      } else if toks[ptr].Close? {
        if dup_parens && count < hwm_count { count := hwm_count; }
        rc := -1;
        return;
      } else if toks[ptr].Bar? {
        if dup_parens {
          if count > hwm_count { hwm_count := count; }
          count := start_count;
        }
        max := if dup_parens then hwm_count else count;
        r := Start(r.b);
      } else {
        r := Rest(r.e.tl, r.more, r.b);
      }
      ptr := ptr + 1;
    }
    TextFits(toks, ptr, RestText(r) + tail);
    RestSize(r);
    NumbersStep(q, r, count, orig, dup_parens, max);
    rc := -1;
  }

  /** find_parens(): the number it reports is the one that compiling assigns to
      the first group asked for; it reports none if there is no such group. */
  method FindParens(toks: seq<Token>, q: Query, ghost pattern: Branches) returns (rc: int)
    requires toks == BranchesText(pattern)
    ensures rc == First(q, BranchesNumbers(pattern, 0, 0, false))
    ensures rc == -1 || rc > 0
  {
    hide TextAt, ElemText, RestText, ElemNumbers, RestNumbers, RestEnd, ElemEnd, First, Start;
    var ptr: nat, count: nat := 0, 0;
    ghost var r := Start(pattern);
    StartText(toks, pattern);
    StartSame(pattern, 0, 0, false, 0);
    while true
      invariant ptr <= |toks| && TextAt(toks, ptr, RestText(r) + []) && ptr + |RestText(r)| == |toks|
      invariant First(q, RestNumbers(r, count, 0, false)) == First(q, BranchesNumbers(pattern, 0, 0, false))
      decreases |toks| - ptr
    {
      RestStep(toks, ptr, r, []);
      RestSize(r);
      NumbersStep(q, r, count, 0, false, 0);
      if r.e.Then? { ElemStart(toks, ptr, r.e.hd); }
      ghost var opens := ptr < |toks| && toks[ptr].Open?;
      rc, ptr, count := FindParensSub(toks, ptr, q, count, if r.e.Then? then r.e.hd else Plain, r);
      if rc > 0 || ptr >= |toks| { return; }
      ptr := ptr + 1;
      r := Rest(r.e.tl, r.more, r.b);
    }
  }

  lemma StartText(toks: seq<Token>, b: Branches)
    requires toks == BranchesText(b)
    ensures TextAt(toks, 0, RestText(Start(b)) + []) && |RestText(Start(b))| == |toks|
  {
    StartSame(b, 0, 0, false, 0);
    assert RestText(Start(b)) + [] == toks;
  }
}
