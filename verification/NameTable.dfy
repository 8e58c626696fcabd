/** The table of named groups: the compiler inserts names in place and in order,
    pcre_get.c finds them by binary search. */
module NameTable {
  import opened Opcodes

  const ERR43 := 43
  const ERR65 := 65
  const PCRE_ERROR_NOSUBSTRING := -7

  /** A name, without its terminating zero. */
  type Name = seq<byte>

  datatype Entry = Entry(number: nat, name: Name)

  /** strcmp() */
  function StrCmp(a: Name, b: Name): int {
    if a == [] && b == [] then 0
    else if a == [] then -1
    else if b == [] then 1
    else if a[0] != b[0] then a[0] - b[0]
    else StrCmp(a[1..], b[1..])
  }

  /** The order is that of a dictionary: up to some place the names are the same,
      and there the first one ends or has the smaller byte. */
  lemma {:induction false} StrCmpOrder(a: Name, b: Name)
    ensures StrCmp(a, b) < 0 <==>
            exists k :: 0 <= k <= |a| && k < |b| && a[..k] == b[..k] && (k == |a| || a[k] < b[k])
    decreases |a|
  {
    SameStart(a, b);
    if a != [] && b != [] && a[0] == b[0] {
      StrCmpOrder(a[1..], b[1..]);
      if k :| 0 <= k <= |a| && k < |b| && a[..k] == b[..k] && (k == |a| || a[k] < b[k]) {
        assert k > 0 && a[1..][..k - 1] == a[..k][1..] && b[1..][..k - 1] == b[..k][1..];
      }
      if k :| 0 <= k <= |a| - 1 && k < |b| - 1 && a[1..][..k] == b[1..][..k] && (k == |a| - 1 || a[1..][k] < b[1..][k]) {
        assert a[..k + 1] == [a[0]] + a[1..][..k] && b[..k + 1] == [b[0]] + b[1..][..k];
      }
    } else if StrCmp(a, b) < 0 {
      assert a[..0] == b[..0];
    }
  }

  lemma SameStart(a: Name, b: Name)
    ensures forall k :: 0 < k <= |a| && k <= |b| && a[..k] == b[..k] ==> a[0] == b[0]
  {
    forall k | 0 < k <= |a| && k <= |b| && a[..k] == b[..k] ensures a[0] == b[0] { assert a[..k][0] == b[..k][0]; }
  }

  /** memcmp() of all of `a` with the start of the cells that hold `b` and its
      terminating zero. */
  function MemCmp(a: Name, b: Name): int
    requires 0 !in a
  {
    if a == [] then 0
    else if b == [] then 1
    else if a[0] != b[0] then a[0] - b[0]
    else MemCmp(a[1..], b[1..])
  }

  lemma {:induction false} StrCmpEqual(a: Name, b: Name)
    ensures StrCmp(a, b) == 0 <==> a == b
    decreases |a|
  {
    if a != [] && b != [] && a[0] == b[0] {
      StrCmpEqual(a[1..], b[1..]);
      assert a == [a[0]] + a[1..] && b == [b[0]] + b[1..];
    }
  }

  lemma {:induction false} StrCmpSwap(a: Name, b: Name)
    ensures StrCmp(a, b) < 0 <==> StrCmp(b, a) > 0
    decreases |a|
  {
    if a != [] && b != [] && a[0] == b[0] { StrCmpSwap(a[1..], b[1..]); }
  }

  lemma {:induction false} StrCmpTrans(a: Name, b: Name, c: Name)
    requires StrCmp(a, b) <= 0 && StrCmp(b, c) <= 0
    ensures StrCmp(a, c) <= 0 && (StrCmp(a, b) < 0 || StrCmp(b, c) < 0 ==> StrCmp(a, c) < 0)
    decreases |a|
  {
    if a != [] && b != [] && c != [] && a[0] == b[0] == c[0] { StrCmpTrans(a[1..], b[1..], c[1..]); }
  }

  /** Comparing only the length of the new name, and then looking whether the
      other name ends there, decides as strcmp() does. */
  lemma {:induction false} MemCmpDecides(a: Name, b: Name)
    requires 0 !in a && 0 !in b
    ensures MemCmp(a, b) == 0 ==> |a| <= |b| && (if |b| == |a| then StrCmp(a, b) == 0 else StrCmp(a, b) < 0)
    ensures MemCmp(a, b) < 0 ==> StrCmp(a, b) < 0
    ensures MemCmp(a, b) > 0 ==> StrCmp(a, b) > 0
    decreases |a|
  {
    if a != [] && b != [] && a[0] == b[0] { MemCmpDecides(a[1..], b[1..]); }
  }

  /** The order of a new name and one in the table, as the two comparisons show it. */
  lemma OrderOf(a: Name, b: Name)
    requires 0 !in a && 0 !in b
    ensures MemCmp(a, b) == 0 && |a| == |b| <==> a == b
    ensures MemCmp(a, b) < 0 || (MemCmp(a, b) == 0 && |a| != |b|) <==> StrCmp(a, b) < 0
    ensures StrCmp(b, a) <= 0 <==> StrCmp(a, b) >= 0
  {
    MemCmpDecides(a, b);
    StrCmpEqual(a, b);
    StrCmpEqual(b, a);
    StrCmpSwap(a, b);
    StrCmpSwap(b, a);
  }

  ghost predicate Sorted(t: seq<Entry>) {
    forall i, j :: 0 <= i < j < |t| ==> StrCmp(t[i].name, t[j].name) <= 0
  }

  ghost predicate Proper(t: seq<Entry>) {
    forall i :: 0 <= i < |t| ==> 0 !in t[i].name
  }

  /** The name is in the table with another number. */
  predicate NameClash(t: seq<Entry>, name: Name, number: nat) {
    exists i :: 0 <= i < |t| && t[i].name == name && t[i].number != number
  }

  predicate HasName(t: seq<Entry>, name: Name) {
    exists i :: 0 <= i < |t| && t[i].name == name
  }

  predicate HasNumber(t: seq<Entry>, number: nat) {
    exists i :: 0 <= i < |t| && t[i].number == number
  }

  /** `name` goes between the names up to it and those after it. */
  ghost predicate Between(t: seq<Entry>, p: nat, name: Name) {
    p <= |t| && (forall i :: 0 <= i < p ==> StrCmp(t[i].name, name) <= 0) &&
    (forall i :: p <= i < |t| ==> StrCmp(name, t[i].name) < 0)
  }

  lemma InsertSorted(t: seq<Entry>, p: nat, e: Entry)
    requires Sorted(t) && Between(t, p, e.name)
    ensures Sorted(t[..p] + [e] + t[p..])
  {
    var u := t[..p] + [e] + t[p..];
    forall i, j | 0 <= i < j < |u| ensures StrCmp(u[i].name, u[j].name) <= 0 {
      assert u[i] == if i < p then t[i] else if i == p then e else t[i - 1];
      assert u[j] == if j < p then t[j] else if j == p then e else t[j - 1];
    }
  }

  class Names {
    const name_table: array<Entry>
    var names_found: nat

    ghost predicate Valid()
      reads this, name_table
    {
      names_found <= name_table.Length && Sorted(Entries()) && Proper(Entries())
    }

    ghost function Entries(): seq<Entry>
      requires names_found <= name_table.Length
      reads this, name_table
    {
      name_table[..names_found]
    }

    constructor (entries: array<Entry>)
      ensures Valid() && names_found == 0 && name_table == entries
    {
      name_table, names_found := entries, 0;
    }

    /** Where the name goes, and whether it is there already. A later name ends
        the search; an equal one does not. */
    method FindSlot(name: Name, number: nat, dupnames: bool) returns (slot: nat, dupname: bool, errorcode: int)
      requires Valid() && 0 !in name
      ensures errorcode == 0 || errorcode == ERR43
      ensures errorcode == ERR43 <==> !dupnames && NameClash(Entries(), name, number)
      ensures errorcode == 0 ==> Between(Entries(), slot, name) && (dupname <==> HasName(Entries(), name))
    {
      hide StrCmp, MemCmp, Sorted, HasName, NameClash;
      slot, dupname, errorcode := 0, false, 0;
      ghost var t := Entries();
      NoneYet(t, name, number);
      while slot < names_found
        invariant slot <= names_found
        invariant forall i :: 0 <= i < slot ==> StrCmp(t[i].name, name) <= 0
        invariant dupname <==> HasName(t[..slot], name)
        invariant dupnames || !NameClash(t[..slot], name, number)
      {
        var other := name_table[slot];
        assert other == t[slot];
        OneMore(t, slot, name, number);
        var crc := MemCmp(name, other.name);
        OrderOf(name, other.name);
        if crc == 0 {
          if |other.name| == |name| {
            if other.number != number && !dupnames {
              errorcode := ERR43;
              assert NameClash(t, name, number) by { ThisClashes(t, slot, name, number); }
              return;
            }
            dupname := true;
          } else {
            crc := -1;
          }
        }
        if crc < 0 {
          LaterNames(t, slot, name);
          NoneLater(t, slot, name, number);
          return;
        }
        slot := slot + 1;
      }
      assert t[..slot] == t;
    }

    /** Insert a name for the group with this number, keeping the order. */
    method Insert(name: Name, number: nat, dupnames: bool) returns (errorcode: int)
      requires Valid() && names_found < name_table.Length && 0 !in name
      modifies this, name_table
      ensures errorcode == 0 || errorcode == ERR43 || errorcode == ERR65
      ensures errorcode == ERR43 <==> !dupnames && NameClash(old(Entries()), name, number)
      ensures errorcode == ERR65 <==> !HasName(old(Entries()), name) && HasNumber(old(Entries()), number)
      ensures errorcode == 0 ==>
                && Valid() && names_found == old(names_found) + 1
                && exists p: nat :: p <= old(names_found) && Between(old(Entries()), p, name) &&
                     Entries() == old(Entries())[..p] + [Entry(number, name)] + old(Entries())[p..]
    {
      hide Sorted, Proper, Between, NameClash, HasName, HasNumber;
      ghost var t := Entries();
      var slot, dupname;
      slot, dupname, errorcode := FindSlot(name, number, dupnames);
      if errorcode != 0 {
        ClashHasName(t, name, number);
        return;
      }
      SlotInside(t, slot, name);
      MoveSlots(slot);
      if !dupname {
        var taken := NumberTaken(number, slot, t);
        if taken { return ERR65; }
      }
      name_table[slot] := Entry(number, name);
      names_found := names_found + 1;
      InsertSorted(t, slot, Entry(number, name));
      InsertProper(t, slot, Entry(number, name));
      Inserted(name_table[..], t, slot, Entry(number, name));
    }

    /** Whether an entry has the number; the free slot is passed over. */
    method NumberTaken(number: nat, slot: nat, ghost t: seq<Entry>) returns (taken: bool)
      requires |t| == names_found < name_table.Length && slot <= names_found
      requires forall i :: 0 <= i < slot ==> name_table[i] == t[i]
      requires forall i :: slot <= i < names_found ==> name_table[i + 1] == t[i]
      ensures taken <==> HasNumber(t, number)
    {
      var seen, cslot := 0, 0;
      while seen < names_found
        invariant seen <= names_found && cslot <= names_found + 1
        invariant cslot == if seen < slot || (seen == slot && cslot == slot) then seen else seen + 1
        invariant forall i :: 0 <= i < seen ==> t[i].number != number
        decreases names_found - seen, names_found + 1 - cslot
      {
        if cslot != slot {
          assert name_table[cslot] == t[seen];
          if name_table[cslot].number == number { return true; }
          seen := seen + 1;
        }
        cslot := cslot + 1;
      }
      return false;
    }

    /** Make room: memmove() of the entries from `slot` on. */
    method MoveSlots(slot: nat)
      requires slot <= names_found < name_table.Length
      modifies name_table
      ensures forall i :: 0 <= i < slot ==> name_table[i] == old(name_table[i])
      ensures forall i :: slot <= i < names_found ==> name_table[i + 1] == old(name_table[i])
    {
      var k := names_found;
      while k > slot
        invariant slot <= k <= names_found
        invariant forall i :: 0 <= i < k ==> name_table[i] == old(name_table[i])
        invariant forall i :: k <= i < names_found ==> name_table[i + 1] == old(name_table[i])
      {
        k := k - 1;
        name_table[k + 1] := name_table[k];
      }
    }

    /** pcre_get_stringnumber: a number of the name if it was inserted. */
    method GetStringNumber(stringname: Name) returns (rc: int)
      requires Valid()
      ensures rc == PCRE_ERROR_NOSUBSTRING <==> !HasName(Entries(), stringname)
      ensures rc != PCRE_ERROR_NOSUBSTRING ==> rc >= 0 && Entry(rc, stringname) in Entries()
    {
      var found, mid := BinarySearch(stringname);
      if !found { return PCRE_ERROR_NOSUBSTRING; }
      assert Entries()[mid] == name_table[mid];
      rc := name_table[mid].number;
    }

    method BinarySearch(stringname: Name) returns (found: bool, mid: nat)
      requires Valid()
      ensures found <==> HasName(Entries(), stringname)
      ensures found ==> mid < names_found && name_table[mid].name == stringname
    {
      var bot: nat, top := 0, names_found;
      ghost var t := Entries();
      while top > bot
        invariant bot <= top <= names_found
        invariant forall i :: 0 <= i < bot ==> StrCmp(stringname, t[i].name) > 0
        invariant forall i :: top <= i < names_found ==> StrCmp(stringname, t[i].name) < 0
      {
        mid := (top + bot) / 2;
        var c := StrCmp(stringname, name_table[mid].name);
        assert name_table[mid] == t[mid];
        StrCmpEqual(stringname, t[mid].name);
        if c == 0 { return true, mid; }
        if c > 0 {
          EarlierToo(t, mid, stringname);
          bot := mid + 1;
        } else {
          LaterNames(t, mid, stringname);
          top := mid;
        }
      }
      NotThere(t, bot, stringname);
      found, mid := false, 0;
    }

    /** pcre_get_stringtable_entries: the first and the last entry of the name. */
    method GetStringTableEntries(stringname: Name) returns (rc: int, first: nat, last: nat)
      requires Valid()
      ensures rc == PCRE_ERROR_NOSUBSTRING <==> !HasName(Entries(), stringname)
      ensures rc != PCRE_ERROR_NOSUBSTRING ==> first <= last < names_found
      ensures rc != PCRE_ERROR_NOSUBSTRING ==>
                forall i :: 0 <= i < names_found ==> (first <= i <= last <==> name_table[i].name == stringname)
    {
      var found, mid := BinarySearch(stringname);
      if !found { return PCRE_ERROR_NOSUBSTRING, 0, 0; }
      ghost var t := Entries();
      rc, first, last := 0, mid, mid;
      while first > 0 && StrCmp(stringname, name_table[first - 1].name) == 0
        invariant first <= mid && forall i :: first <= i <= mid ==> name_table[i].name == stringname
      {
        StrCmpEqual(stringname, name_table[first - 1].name);
        first := first - 1;
      }
      while last < names_found - 1 && StrCmp(stringname, name_table[last + 1].name) == 0
        invariant mid <= last < names_found && forall i :: mid <= i <= last ==> name_table[i].name == stringname
      {
        StrCmpEqual(stringname, name_table[last + 1].name);
        last := last + 1;
      }
      forall i | 0 <= i < names_found ensures first <= i <= last <==> name_table[i].name == stringname {
        BlockEnds(t, first, last, stringname, i);
      }
    }
  }

  /** All entries after one that is later are later. */
  lemma LaterNames(t: seq<Entry>, slot: nat, name: Name)
    requires Sorted(t) && slot < |t| && StrCmp(name, t[slot].name) < 0
    ensures forall i :: slot <= i < |t| ==> StrCmp(name, t[i].name) < 0 && t[i].name != name
  {
    forall i | slot <= i < |t| ensures StrCmp(name, t[i].name) < 0 && t[i].name != name {
      if i > slot { StrCmpTrans(name, t[slot].name, t[i].name); }
      StrCmpEqual(name, t[i].name);
    }
  }

  lemma EarlierToo(t: seq<Entry>, slot: nat, name: Name)
    requires Sorted(t) && slot < |t| && StrCmp(name, t[slot].name) > 0
    ensures forall i :: 0 <= i <= slot ==> StrCmp(name, t[i].name) > 0
  {
    forall i | 0 <= i <= slot ensures StrCmp(name, t[i].name) > 0 {
      StrCmpSwap(t[slot].name, name);
      if i < slot { StrCmpTrans(t[i].name, t[slot].name, name); }
      StrCmpSwap(t[i].name, name);
    }
  }

  lemma NotThere(t: seq<Entry>, k: nat, name: Name)
    requires k <= |t| && (forall i :: 0 <= i < k ==> StrCmp(name, t[i].name) > 0) && (forall i :: k <= i < |t| ==> StrCmp(name, t[i].name) < 0)
    ensures !HasName(t, name)
  {
    forall i | 0 <= i < |t| ensures t[i].name != name { StrCmpEqual(name, t[i].name); }
  }

  lemma NoneYet(t: seq<Entry>, name: Name, number: nat)
    ensures !HasName(t[..0], name) && !NameClash(t[..0], name, number)
  {}

  lemma OneMore(t: seq<Entry>, k: nat, name: Name, number: nat)
    requires k < |t|
    ensures HasName(t[..k + 1], name) <==> HasName(t[..k], name) || t[k].name == name
    ensures NameClash(t[..k + 1], name, number) <==> NameClash(t[..k], name, number) || (t[k].name == name && t[k].number != number)
  {
    var a, b := t[..k], t[..k + 1];
    assert b == a + [t[k]];
    if HasName(a, name) { var i :| 0 <= i < |a| && a[i].name == name; assert b[i].name == name; }
    if NameClash(a, name, number) { var i :| 0 <= i < |a| && a[i].name == name && a[i].number != number; assert b[i] == a[i]; }
    if t[k].name == name { assert b[k].name == name; }
  }

  lemma NoneLater(t: seq<Entry>, k: nat, name: Name, number: nat)
    requires k <= |t| && forall i :: k <= i < |t| ==> t[i].name != name
    ensures HasName(t, name) <==> HasName(t[..k], name)
    ensures NameClash(t, name, number) <==> NameClash(t[..k], name, number)
  {
    var a := t[..k];
    if HasName(a, name) { var i :| 0 <= i < |a| && a[i].name == name; assert t[i].name == name; }
    if NameClash(a, name, number) { var i :| 0 <= i < |a| && a[i].name == name && a[i].number != number; assert t[i] == a[i]; }
    if HasName(t, name) { var i :| 0 <= i < |t| && t[i].name == name; assert a[i].name == name; }
    if NameClash(t, name, number) { var i :| 0 <= i < |t| && t[i].name == name && t[i].number != number; assert a[i] == t[i]; }
  }

  lemma ThisClashes(t: seq<Entry>, k: nat, name: Name, number: nat)
    requires k < |t| && t[k].name == name && t[k].number != number
    ensures NameClash(t, name, number)
  {}

  lemma SlotInside(t: seq<Entry>, p: nat, name: Name)
    requires Between(t, p, name)
    ensures p <= |t|
  {}

  lemma Inserted(u: seq<Entry>, t: seq<Entry>, p: nat, e: Entry)
    requires p <= |t| < |u| && u[p] == e
    requires (forall i :: 0 <= i < p ==> u[i] == t[i]) && (forall i :: p <= i < |t| ==> u[i + 1] == t[i])
    ensures u[..|t| + 1] == t[..p] + [e] + t[p..]
  {}

  lemma InsertProper(t: seq<Entry>, p: nat, e: Entry)
    requires Proper(t) && p <= |t| && 0 !in e.name
    ensures Proper(t[..p] + [e] + t[p..])
  {}

  lemma ClashHasName(t: seq<Entry>, name: Name, number: nat)
    requires NameClash(t, name, number)
    ensures HasName(t, name)
  {}

  /** Equal names are adjacent. */
  lemma BlockEnds(t: seq<Entry>, first: nat, last: nat, name: Name, i: nat)
    requires Sorted(t) && first <= last < |t| && i < |t|
    requires forall k :: first <= k <= last ==> t[k].name == name
    requires first > 0 ==> StrCmp(name, t[first - 1].name) != 0
    requires last + 1 < |t| ==> StrCmp(name, t[last + 1].name) != 0
    ensures first <= i <= last <==> t[i].name == name
  {
    if i < first {
      StrCmpEqual(t[first - 1].name, name);
      StrCmpEqual(name, t[first - 1].name);
      if i < first - 1 { StrCmpTrans(t[i].name, t[first - 1].name, t[first].name); }
      StrCmpEqual(t[i].name, name);
    } else if i > last {
      StrCmpEqual(name, t[last + 1].name);
      if i > last + 1 { StrCmpTrans(t[last].name, t[last + 1].name, t[i].name); }
      StrCmpEqual(name, t[i].name);
    }
  }
}
