/** DNS names on the wire (RFC 1035, sections 2.3.4 and 3.1): the encoder of
    CDNS::DNSLookup, which turns the dots of a host name into length octets in
    place, and the decoder CDNS::ParseDNSName. */
module Dns {
  import opened Opcodes

  const DOT: byte := 46
  const HEADER := 12

  type Label = seq<byte>

  /** 1 to 63 bytes, none of them a dot or zero. */
  predicate IsLabel(l: Label) {
    0 < |l| < 64 && DOT !in l && 0 !in l
  }

  predicate IsName(labels: seq<Label>) {
    |labels| > 0 && forall k :: 0 <= k < |labels| ==> IsLabel(labels[k])
  }

  /** The host name: labels with dots between them. */
  function Host(labels: seq<Label>): seq<byte> {
    if |labels| == 0 then [] else if |labels| == 1 then labels[0] else labels[0] + ([DOT] + Host(labels[1..]))
  }

  predicate LabelAt(buf: seq<byte>, p: nat, l: Label) {
    p + |l| <= |buf| && buf[p..p + |l|] == l
  }

  /** The host name as text at `p`. */
  predicate HostAt(buf: seq<byte>, p: nat, labels: seq<Label>)
    decreases |labels|
  {
    |labels| > 0 ==>
      LabelAt(buf, p, labels[0]) &&
      (|labels| > 1 ==> p + |labels[0]| < |buf| && buf[p + |labels[0]|] == DOT && HostAt(buf, p + |labels[0]| + 1, labels[1..]))
  }

  /** The first `k` labels on the wire, from `p` to `q`. */
  predicate WireUpto(buf: seq<byte>, p: nat, labels: seq<Label>, k: nat, q: nat)
    requires k <= |labels|
    decreases k
  {
    if k == 0 then q == p
    else
      p < |buf| && buf[p] == |labels[0]| && LabelAt(buf, p + 1, labels[0]) &&
      WireUpto(buf, p + |labels[0]| + 1, labels[1..], k - 1, q)
  }

  /** The name on the wire, from `p` to its final octet at `q`. */
  predicate WireAt(buf: seq<byte>, p: nat, labels: seq<Label>, q: nat) {
    WireUpto(buf, p, labels, |labels|, q)
  }

  /** HostAt speaks of the text of the host name. */
  lemma {:induction false} HostText(buf: seq<byte>, p: nat, labels: seq<Label>)
    requires |labels| > 0
    ensures HostAt(buf, p, labels) <==> p + |Host(labels)| <= |buf| && buf[p..p + |Host(labels)|] == Host(labels)
    decreases |labels|
  {
    if |labels| > 1 {
      var l, h := labels[0], Host(labels[1..]);
      HostText(buf, p + |l| + 1, labels[1..]);
      if HostAt(buf, p, labels) {
        assert buf[p..p + |l| + 1 + |h|] == buf[p..p + |l|] + ([buf[p + |l|]] + buf[p + |l| + 1..p + |l| + 1 + |h|]);
      }
      if p + |Host(labels)| <= |buf| && buf[p..p + |Host(labels)|] == Host(labels) {
        var s := Host(labels);
        assert s[..|l|] == l && s[|l|] == DOT && s[|l| + 1..] == h;
        assert buf[p..p + |l|] == s[..|l|];
        assert buf[p + |l|] == buf[p..p + |s|][|l|];
        assert buf[p + |l| + 1..p + |s|] == s[|l| + 1..];
      }
    }
  }

  /** The cells outside [p, q) are as they were. */
  predicate SameOutside(was: seq<byte>, now: seq<byte>, p: nat, q: nat) {
    |was| == |now| && forall k :: 0 <= k < |was| && !(p <= k < q) ==> now[k] == was[k]
  }

  lemma LabelSame(was: seq<byte>, now: seq<byte>, p: nat, q: nat, x: nat, l: Label)
    requires SameOutside(was, now, p, q) && LabelAt(was, x, l) && (x + |l| <= p || q <= x)
    ensures LabelAt(now, x, l)
  {
    forall k | 0 <= k < |l| ensures now[x..x + |l|][k] == l[k] {
      assert was[x..x + |l|][k] == was[x + k];
    }
  }

  lemma {:induction false} HostSame(was: seq<byte>, now: seq<byte>, p: nat, q: nat, x: nat, labels: seq<Label>)
    requires SameOutside(was, now, p, q) && HostAt(was, x, labels) && q <= x
    ensures HostAt(now, x, labels)
    decreases |labels|
  {
    hide SameOutside, LabelAt;
    if |labels| > 0 {
      LabelSame(was, now, p, q, x, labels[0]);
      if |labels| > 1 {
        CellSame(was, now, p, q, x + |labels[0]|);
        HostSame(was, now, p, q, x + |labels[0]| + 1, labels[1..]);
      }
    }
  }

  lemma CellSame(was: seq<byte>, now: seq<byte>, p: nat, q: nat, x: nat)
    requires SameOutside(was, now, p, q) && x < |was| && (x < p || q <= x)
    ensures x < |now| && now[x] == was[x]
  {}

  lemma {:induction false} WireSame(was: seq<byte>, now: seq<byte>, p: nat, q: nat, x: nat, labels: seq<Label>, k: nat)
    requires k <= |labels| && SameOutside(was, now, p, q) && WireUpto(was, x, labels, k, p)
    ensures WireUpto(now, x, labels, k, p) && x <= p
    decreases k
  {
    hide SameOutside, LabelAt;
    if k > 0 {
      WireRange(was, x, labels, k, p);
      CellSame(was, now, p, q, x);
      LabelSame(was, now, p, q, x + 1, labels[0]);
      WireSame(was, now, p, q, x + |labels[0]| + 1, labels[1..], k - 1);
    }
  }

  lemma {:induction false} WireRange(buf: seq<byte>, p: nat, labels: seq<Label>, k: nat, q: nat)
    requires k <= |labels| && WireUpto(buf, p, labels, k, q)
    ensures p <= q && (k > 0 ==> p + |labels[0]| + 1 <= q)
    decreases k
  {
    hide LabelAt;
    if k > 0 { WireRange(buf, p + |labels[0]| + 1, labels[1..], k - 1, q); }
  }

  lemma {:induction false} WireMore(buf: seq<byte>, p: nat, labels: seq<Label>, k: nat, q: nat)
    requires k < |labels| && WireUpto(buf, p, labels, k, q)
    requires q < |buf| && buf[q] == |labels[k]| && LabelAt(buf, q + 1, labels[k])
    ensures WireUpto(buf, p, labels, k + 1, q + |labels[k]| + 1)
    decreases k
  {
    hide LabelAt;
    if k > 0 { WireMore(buf, p + |labels[0]| + 1, labels[1..], k - 1, q); }
  }

  /** Where the encoder stands: the first `k` labels are done. */
  ghost predicate Encoding(buf: seq<byte>, start: nat, end: nat, labels: seq<Label>, k: nat, ptr: nat) {
    && IsName(labels) && k <= |labels| && end + 1 < |buf| && buf[end] == 0 == buf[end + 1]
    && ptr > start && WireUpto(buf, start, labels, k, ptr - 1)
    && HostAt(buf, ptr, labels[k..])
    && (if k == |labels| then ptr == end + 1 else ptr + |Host(labels[k..])| == end)
  }

  lemma EncodingLabel(buf: seq<byte>, start: nat, end: nat, labels: seq<Label>, k: nat, ptr: nat, len: nat)
    requires Encoding(buf, start, end, labels, k, ptr) && k < |labels| && len <= |labels[k]|
    ensures 0 < |labels[k]| < 64 && ptr + |labels[k]| <= end < |buf| && start < ptr && buf[ptr] != 0
    ensures len < |labels[k]| ==> buf[ptr + len] != DOT && buf[ptr + len] != 0
    ensures len == |labels[k]| ==> buf[ptr + len] == DOT || buf[ptr + len] == 0
    ensures k + 1 == |labels| ==> ptr + |labels[k]| == end
    ensures k + 1 < |labels| ==> ptr + |labels[k]| + 1 + |Host(labels[k + 1..])| == end && HostAt(buf, ptr + |labels[k]| + 1, labels[k + 1..])
    ensures LabelAt(buf, ptr, labels[k])
  {
    hide WireUpto;
    var rest := labels[k..];
    assert rest[0] == labels[k] && IsLabel(labels[k]) && rest[1..] == labels[k + 1..];
    assert buf[ptr..ptr + |rest[0]|][0] == rest[0][0];
    if len < |rest[0]| { assert buf[ptr..ptr + |rest[0]|][len] == rest[0][len]; }
  }

  /** The octet before a label gets its length. */
  lemma EncodingStep(was: seq<byte>, now: seq<byte>, start: nat, end: nat, labels: seq<Label>, k: nat, ptr: nat, len: byte)
    requires Encoding(was, start, end, labels, k, ptr) && k < |labels| && len == |labels[k]| && 0 < ptr <= |was|
    requires now == was[ptr - 1 := len]
    ensures Encoding(now, start, end, labels, k + 1, ptr + |labels[k]| + 1)
    ensures SameOutside(was, now, start, end)
  {
    hide Encoding, LabelAt, Host, SameOutside, HostAt, WireUpto, IsName, IsLabel;
    EncodingLabel(was, start, end, labels, k, ptr, len);
    EncodingParts(was, start, end, labels, k, ptr);
    OctetWritten(was, now, ptr - 1, len);
    var l := labels[k];
    WireSame(was, now, ptr - 1, ptr, start, labels, k);
    LabelSame(was, now, ptr - 1, ptr, ptr, l);
    WireMore(now, start, labels, k, ptr - 1);
    CellSame(was, now, ptr - 1, ptr, end);
    CellSame(was, now, ptr - 1, ptr, end + 1);
    if k + 1 < |labels| {
      HostSame(was, now, ptr - 1, ptr, ptr + |l| + 1, labels[k + 1..]);
    } else {
      NoHost(now, ptr + |l| + 1, labels[k + 1..]);
    }
    SameLess(was, now, ptr - 1, ptr, start, end);
    EncodingMade(now, start, end, labels, k + 1, ptr + |l| + 1);
  }

  lemma EncodingParts(buf: seq<byte>, start: nat, end: nat, labels: seq<Label>, k: nat, ptr: nat)
    requires Encoding(buf, start, end, labels, k, ptr)
    ensures IsName(labels) && k <= |labels| && end + 1 < |buf| && buf[end] == 0 == buf[end + 1]
    ensures ptr > start && WireUpto(buf, start, labels, k, ptr - 1)
  {}

  lemma EncodingMade(buf: seq<byte>, start: nat, end: nat, labels: seq<Label>, k: nat, ptr: nat)
    requires IsName(labels) && k <= |labels| && end + 1 < |buf| && buf[end] == 0 == buf[end + 1]
    requires ptr > start && WireUpto(buf, start, labels, k, ptr - 1) && HostAt(buf, ptr, labels[k..])
    requires if k == |labels| then ptr == end + 1 else ptr + |Host(labels[k..])| == end
    ensures Encoding(buf, start, end, labels, k, ptr)
  {}

  lemma NoHost(buf: seq<byte>, p: nat, labels: seq<Label>)
    requires labels == []
    ensures HostAt(buf, p, labels)
  {}

  lemma OctetWritten(was: seq<byte>, now: seq<byte>, p: nat, c: byte)
    requires p < |was| && now == was[p := c]
    ensures SameOutside(was, now, p, p + 1) && now[p] == c
  {}

  lemma SameLess(was: seq<byte>, now: seq<byte>, p: nat, q: nat, p': nat, q': nat)
    requires SameOutside(was, now, p, q) && p' <= p && q <= q'
    ensures SameOutside(was, now, p', q')
  {}

  lemma SameSelf(s: seq<byte>, p: nat, q: nat)
    ensures SameOutside(s, s, p, q)
  {}

  lemma SameTwice(was: seq<byte>, mid: seq<byte>, now: seq<byte>, p: nat, q: nat)
    requires SameOutside(was, mid, p, q) && SameOutside(mid, now, p, q)
    ensures SameOutside(was, now, p, q)
  {}

  lemma EncodingStart(buf: seq<byte>, start: nat, labels: seq<Label>)
    requires IsName(labels) && start + |Host(labels)| + 2 < |buf| && HostAt(buf, start + 1, labels)
    requires buf[start + |Host(labels)| + 1] == 0 == buf[start + |Host(labels)| + 2]
    ensures Encoding(buf, start, start + |Host(labels)| + 1, labels, 0, start + 1)
  {
    assert labels[0..] == labels;
  }

  lemma EncodingEnd(buf: seq<byte>, start: nat, end: nat, labels: seq<Label>, k: nat, ptr: nat)
    requires Encoding(buf, start, end, labels, k, ptr)
    ensures ptr < |buf| && (buf[ptr] == 0 <==> k == |labels|)
    ensures k == |labels| ==> ptr == end + 1 && WireAt(buf, start, labels, end) && buf[end] == 0
  {
    if k < |labels| { EncodingLabel(buf, start, end, labels, k, ptr, 0); }
  }

  /** The loop of DNSLookup. The host name stands behind one free octet at
      `start` and is followed by zeros; the free octet and each dot become the
      length of the label behind them. */
  method EncodeName(buf: array<byte>, start: nat, ghost labels: seq<Label>)
    requires IsName(labels) && start + |Host(labels)| + 2 < buf.Length && HostAt(buf[..], start + 1, labels)
    requires buf[start + |Host(labels)| + 1] == 0 == buf[start + |Host(labels)| + 2]
    modifies buf
    ensures WireAt(buf[..], start, labels, start + |Host(labels)| + 1) && buf[start + |Host(labels)| + 1] == 0
    ensures SameOutside(old(buf[..]), buf[..], start, start + |Host(labels)| + 1)
  {
    hide Host, SameOutside, Encoding, WireAt, HostAt, IsName, IsLabel, LabelAt;
    ghost var was, end := buf[..], start + |Host(labels)| + 1;
    ghost var k := 0;
    var ptr: nat, len: byte := start + 1, 0;
    EncodingStart(was, start, labels);
    SameSelf(was, start, end);
    EncodingEnd(was, start, end, labels, k, ptr);
    while buf[ptr] != 0
      invariant ptr < buf.Length && k <= |labels| && Encoding(buf[..], start, end, labels, k, ptr)
      invariant k < |labels| ==> len <= |labels[k]|
      invariant buf[ptr] == 0 <==> k == |labels|
      invariant SameOutside(was, buf[..], start, end)
      decreases |labels| - k, if k < |labels| then |labels[k]| - len else 0
    {
      EncodingLabel(buf[..], start, end, labels, k, ptr, len);
      if buf[ptr + len] == DOT || buf[ptr + len] == 0 {
        ghost var mid := buf[..];
        buf[ptr - 1] := len;
        EncodingStep(mid, buf[..], start, end, labels, k, ptr, len);
        SameTwice(was, mid, buf[..], start, end);
        ptr := ptr + len + 1;
        k := k + 1;
        len := 0;
        EncodingEnd(buf[..], start, end, labels, k, ptr);
      } else {
        len := (len + 1) % 256;
      }
    }
    EncodingEnd(buf[..], start, end, labels, k, ptr);
  }

  // ---- Reading a name ----

  /** A byte with both top bits set is a pointer, as long as none was followed. */
  predicate IsPointer(c: byte, followed: bool) { !followed && c >= 192 }

  /** Only the low six bits of the pointer's first byte are used. */
  function Target(c: byte): nat { HEADER + c % 64 }

  /** Reading from `o` comes to a zero octet inside the buffer. */
  predicate Walks(buf: seq<byte>, o: nat, followed: bool)
    decreases !followed, |buf| - o
  {
    o < |buf| &&
    (buf[o] == 0 ||
     if IsPointer(buf[o], followed) then Walks(buf, Target(buf[o]), true)
     else o + buf[o] + 1 < |buf| && Walks(buf, o + buf[o] + 1, followed))
  }

  function NameAt(buf: seq<byte>, o: nat, followed: bool): seq<byte>
    requires Walks(buf, o, followed)
    decreases !followed, |buf| - o
  {
    if buf[o] == 0 then []
    else if IsPointer(buf[o], followed) then NameAt(buf, Target(buf[o]), true)
    else
      var next := o + buf[o] + 1;
      buf[o + 1..next] + (if buf[next] > 0 then [DOT] + NameAt(buf, next, followed) else [])
  }

  /** The bytes that a name takes where it stands: a pointer takes two. */
  function SizeAt(buf: seq<byte>, o: nat): nat
    requires Walks(buf, o, false)
    decreases |buf| - o
  {
    if buf[o] == 0 then 1
    else if IsPointer(buf[o], false) then 2
    else buf[o] + 1 + SizeAt(buf, o + buf[o] + 1)
  }

  /** One step of reading. */
  lemma ReadStep(buf: seq<byte>, o: nat, followed: bool)
    requires Walks(buf, o, followed)
    ensures o < |buf|
    ensures buf[o] == 0 ==> NameAt(buf, o, followed) == [] && (!followed ==> SizeAt(buf, o) == 1)
    ensures buf[o] > 0 && IsPointer(buf[o], followed) ==>
              && Walks(buf, Target(buf[o]), true) && NameAt(buf, o, followed) == NameAt(buf, Target(buf[o]), true) && SizeAt(buf, o) == 2
    ensures buf[o] > 0 && !IsPointer(buf[o], followed) ==>
              var next := o + buf[o] + 1;
              && next < |buf| && Walks(buf, next, followed)
              && NameAt(buf, o, followed) == buf[o + 1..next] + (if buf[next] > 0 then [DOT] + NameAt(buf, next, followed) else [])
              && (!followed ==> SizeAt(buf, o) == buf[o] + 1 + SizeAt(buf, next))
  {}

  lemma Regroup(a: seq<byte>, b: seq<byte>, c: seq<byte>, d: seq<byte>)
    ensures a + (b + (c + d)) == a + b + c + d == a + (b + c) + d && a + (b + []) == a + b
  {}

  method Part(buffer: array<byte>, p: nat, q: nat) returns (part: seq<byte>)
    requires p <= q <= buffer.Length
    ensures part == buffer[..][p..q]
  {
    part := buffer[p..q];
  }

  /** Part of the way through a name: `domain` and what is still to be read. */
  ghost predicate Reading(buf: seq<byte>, start: nat, offset: nat, followed: bool, domain: seq<byte>, len: nat) {
    && Walks(buf, start, false) && Walks(buf, offset, followed) && offset < |buf|
    && domain + NameAt(buf, offset, followed) == NameAt(buf, start, false)
    && (if followed then len == SizeAt(buf, start) else len + SizeAt(buf, offset) == SizeAt(buf, start) + 1)
  }

  lemma ReadPointer(buf: seq<byte>, start: nat, offset: nat, domain: seq<byte>, len: nat)
    requires Reading(buf, start, offset, false, domain, len) && buf[offset] >= 192
    ensures Reading(buf, start, Target(buf[offset]), true, domain, len + 1)
  {
    hide NameAt, SizeAt, Walks;
    ReadStep(buf, offset, false);
    ReadStep(buf, Target(buf[offset]), true);
  }

  lemma ReadLabel(buf: seq<byte>, start: nat, offset: nat, followed: bool, domain: seq<byte>, len: nat)
    requires Reading(buf, start, offset, followed, domain, len) && buf[offset] > 0 && !IsPointer(buf[offset], followed)
    ensures var next := offset + buf[offset] + 1;
            next < |buf| &&
            Reading(buf, start, next, followed, domain + buf[offset + 1..next] + (if buf[next] > 0 then [DOT] else []),
                    if followed then len else len + buf[offset] + 1)
  {
    hide NameAt, SizeAt, Walks;
    var next := offset + buf[offset] + 1;
    ReadStep(buf, offset, followed);
    ReadStep(buf, next, followed);
    Regroup(domain, buf[offset + 1..next], [DOT], NameAt(buf, next, followed));
    Regroup(domain + buf[offset + 1..next], [], [], []);
  }

  lemma ReadStart(buf: seq<byte>, start: nat)
    requires Walks(buf, start, false)
    ensures Reading(buf, start, start, false, [], 1)
  {}

  lemma ReadEnd(buf: seq<byte>, start: nat, offset: nat, followed: bool, domain: seq<byte>, len: nat)
    requires Reading(buf, start, offset, followed, domain, len) && buf[offset] == 0
    ensures domain == NameAt(buf, start, false) && len == SizeAt(buf, start)
  {
    assert domain + [] == domain;
  }

  lemma ReadInside(buf: seq<byte>, start: nat, offset: nat, followed: bool, domain: seq<byte>, len: nat)
    requires Reading(buf, start, offset, followed, domain, len)
    ensures offset < |buf|
  {}

  /** ParseDNSName */
  method ParseDNSName(buffer: array<byte>, start: nat) returns (domain: seq<byte>, len: nat)
    requires Walks(buffer[..], start, false)
    ensures domain == NameAt(buffer[..], start, false) && len == SizeAt(buffer[..], start)
  {
    hide Walks, NameAt, SizeAt, Reading;
    var followed, offset: nat := false, start;
    domain, len := [], 1;
    ReadStart(buffer[..], start);
    ReadInside(buffer[..], start, offset, followed, domain, len);
    while buffer[offset] > 0
      invariant offset < buffer.Length && Reading(buffer[..], start, offset, followed, domain, len)
      decreases !followed, buffer.Length - offset
    {
      if !followed && buffer[offset] >= 192 {
        ReadPointer(buffer[..], start, offset, domain, len);
        followed := true;
        offset := HEADER + buffer[offset] % 64;
        len := len + 1;
        ReadInside(buffer[..], start, offset, followed, domain, len);
        continue;
      }
      ReadLabel(buffer[..], start, offset, followed, domain, len);
      var part := Part(buffer, offset + 1, offset + 1 + buffer[offset]);
      domain := domain + part;
      if !followed { len := len + buffer[offset] + 1; }
      offset := offset + buffer[offset] + 1;
      if buffer[offset] > 0 { domain := domain + [DOT]; } else { NoDot(domain); }
    }
    ReadEnd(buffer[..], start, offset, followed, domain, len);
  }

  lemma NoDot(domain: seq<byte>)
    ensures domain + [] == domain
  {}

  /** One label of a name that is read from `o`; every byte below 192 is taken for
      a length. */
  lemma LabelReads(buf: seq<byte>, o: nat, l: Label)
    requires 0 < |l| < 192 && o < |buf| && buf[o] == |l| && LabelAt(buf, o + 1, l)
    ensures var next := o + |l| + 1;
            && next <= |buf| && (Walks(buf, o, false) <==> next < |buf| && Walks(buf, next, false))
            && (Walks(buf, o, false) ==>
                  && NameAt(buf, o, false) == l + (if buf[next] > 0 then [DOT] + NameAt(buf, next, false) else [])
                  && SizeAt(buf, o) == |l| + 1 + SizeAt(buf, next))
  {
    assert buf[o + 1..o + 1 + |l|] == buf[o + 1..o + |l| + 1];
  }

  lemma FirstLabel(buf: seq<byte>, o: nat, labels: seq<Label>, q: nat)
    requires IsName(labels) && WireAt(buf, o, labels, q)
    ensures var l := labels[0];
            && IsLabel(l) && o < |buf| && buf[o] == |l| && LabelAt(buf, o + 1, l) && WireAt(buf, o + |l| + 1, labels[1..], q)
    ensures |labels| > 1 ==> IsName(labels[1..]) && o + |labels[0]| + 1 < |buf| && buf[o + |labels[0]| + 1] > 0
    ensures |labels| == 1 ==> q == o + |labels[0]| + 1
    ensures |Host(labels)| == |labels[0]| + (if |labels| == 1 then 0 else 1 + |Host(labels[1..])|)
  {
    if |labels| > 1 { assert IsLabel(labels[1]) && labels[1..][0] == labels[1]; }
  }

  /** A name on the wire reads as the host name it was made from and takes two
      bytes more than that. */
  lemma {:induction false} WireReads(buf: seq<byte>, o: nat, labels: seq<Label>, q: nat)
    requires IsName(labels) && WireAt(buf, o, labels, q) && q < |buf| && buf[q] == 0
    ensures Walks(buf, o, false) && NameAt(buf, o, false) == Host(labels) && SizeAt(buf, o) == |Host(labels)| + 2
    decreases |labels|
  {
    hide WireAt, LabelAt;
    FirstLabel(buf, o, labels, q);
    LabelReads(buf, o, labels[0]);
    if |labels| > 1 { WireReads(buf, o + |labels[0]| + 1, labels[1..], q); }
  }

  /** A name whose labels end in a pointer takes its labels and two bytes,
      wherever the pointer leads. */
  lemma {:induction false} PointerReads(buf: seq<byte>, o: nat, labels: seq<Label>, q: nat)
    requires IsName(labels) && WireAt(buf, o, labels, q) && q < |buf| && buf[q] >= 192 && Walks(buf, o, false)
    ensures SizeAt(buf, o) == |Host(labels)| + 3 == q - o + 2
    ensures Walks(buf, 12 + buf[q] % 64, true) && NameAt(buf, o, false) == Host(labels) + ([DOT] + NameAt(buf, 12 + buf[q] % 64, true))
    decreases |labels|
  {
    hide WireAt, LabelAt, NameAt, SizeAt, Walks;
    FirstLabel(buf, o, labels, q);
    var next := o + |labels[0]| + 1;
    LabelReads(buf, o, labels[0]);
    if |labels| > 1 {
      PointerReads(buf, next, labels[1..], q);
      Regroup(labels[0], [DOT], Host(labels[1..]), [DOT] + NameAt(buf, Target(buf[q]), true));
    } else {
      ReadStep(buf, next, false);
    }
  }

  /** What DNSLookup encodes, ParseDNSName reads back. */
  method RoundTrip(buf: array<byte>, start: nat, ghost labels: seq<Label>) returns (host: seq<byte>, len: nat)
    requires IsName(labels) && start + |Host(labels)| + 2 < buf.Length && HostAt(buf[..], start + 1, labels)
    requires buf[start + |Host(labels)| + 1] == 0 == buf[start + |Host(labels)| + 2]
    modifies buf
    ensures host == Host(labels) && len == |Host(labels)| + 2
  {
    hide WireAt, HostAt, Host;
    EncodeName(buf, start, labels);
    WireReads(buf[..], start, labels, start + |Host(labels)| + 1);
    host, len := ParseDNSName(buf, start);
  }
}
