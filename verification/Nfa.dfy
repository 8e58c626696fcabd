/** The states of internal_dfa_exec(): which states an opcode adds for the same
    and for the next subject position, and the paths that they form. */
module Nfa {
  import opened Opcodes
  import opened Tree

  /** A stateblock: the offset of an opcode and how often it has matched. */
  datatype State = State(offset: nat, count: nat)

  /** A state at a subject position. */
  datatype Conf = Conf(st: State, i: nat)

  // ---- Reading the code at any offset ----

  function Cell(code: seq<int>, p: nat): int {
    if p < |code| then code[p] else OP_END
  }

  function Num(code: seq<int>, p: nat): nat {
    var n := Cell(code, p) * 256 + Cell(code, p + 1);
    if n < 0 then 0 else n
  }

  /** The ket at the end of the links from `p`. */
  function KetFrom(code: seq<int>, p: nat): nat
    decreases |code| - p
  {
    var q := p + Num(code, p + 1);
    if q > p && p < |code| && Cell(code, q) == OP_ALT then KetFrom(code, q) else q
  }

  /** The states just inside each branch of the bracket with header at `p`. */
  function BranchStarts(code: seq<int>, p: nat, h: nat): seq<State>
    decreases |code| - p
  {
    var q := p + Num(code, p + 1);
    [State(p + h, 0)] +
    if q > p && p < |code| && Cell(code, q) == OP_ALT then BranchStarts(code, q, 1 + LINK_SIZE) else []
  }

  /** An opcode that inspects one byte, with its repeat if it has one. */
  datatype Unit = Unit(x: Single, repeat: bool, kind: Kind, size: nat)

  function CharAt(code: seq<int>, p: nat): Single {
    var c := Cell(code, p);
    if 0 <= c < 256 then Chr(c) else Type(OP_ALLANY)
  }

  function TypeAt(code: seq<int>, p: nat): Single {
    if IsTypeOp(Cell(code, p)) then Type(Cell(code, p)) else Type(OP_ALLANY)
  }

  /** Repeats of a character or type, by position in the family. */
  function FamilyKind(code: seq<int>, p: nat, o: int): Kind {
    if o < 2 then Star else if o < 4 then Plus else if o < 6 then Query
    else if o < 8 then Upto(Num(code, p + 1)) else if o == 8 then Exact(Num(code, p + 1))
    else if o == 9 then PosStar else if o == 10 then PosPlus else if o == 11 then PosQuery
    else PosUpto(Num(code, p + 1))
  }

  function ClassKind(code: seq<int>, p: nat, o: int): Kind {
    if o < 2 then Star else if o < 4 then Plus else if o < 6 then Query
    else Range(Num(code, p + 1), Num(code, p + 3))
  }

  function UnitAt(code: seq<int>, p: nat): (u: Unit)
    ensures WFSingle(u.x)
  {
    var op := Cell(code, p);
    if op == OP_CHAR then Unit(CharAt(code, p + 1), false, Star, 2)
    else if op == OP_CLASS && p + 33 <= |code| then
      var x := Set(code[p + 1..p + 33]);
      var o := Cell(code, p + 33) - OP_CRSTAR;
      if 0 <= o < 8 then Unit(x, true, ClassKind(code, p + 33, o), if o < 6 then 34 else 38)
      else Unit(x, false, Star, 33)
    else if OP_STAR <= op <= OP_POSUPTO then
      var n := if OP_UPTO <= op <= OP_EXACT || op == OP_POSUPTO then 4 else 2;
      Unit(CharAt(code, p + n - 1), true, FamilyKind(code, p, op - OP_STAR), n)
    else if OP_TYPESTAR <= op <= OP_TYPEPOSUPTO then
      var n := if OP_TYPEUPTO <= op <= OP_TYPEEXACT || op == OP_TYPEPOSUPTO then 4 else 2;
      Unit(TypeAt(code, p + n - 1), true, FamilyKind(code, p, op - OP_TYPESTAR), n)
    else Unit(TypeAt(code, p), false, Star, 1)
  }

  // ---- What each opcode adds ----

  predicate IsUnitOp(op: int) {
    !IsZeroOp(op) && op != OP_END && !(OP_ALT <= op <= OP_KETRMIN) &&
    op != OP_BRA && op != OP_SBRA && op != OP_CBRA && op != OP_SCBRA && op != OP_BRAZERO && op != OP_BRAMINZERO
  }

  /** A possessive repeat. */
  predicate Holds(u: Unit) {
    u.repeat && (u.kind.PosStar? || u.kind.PosPlus? || u.kind.PosQuery? || u.kind.PosUpto?)
  }

  /** Leaving the item without another byte; `hit` tells whether it could take
      the next one. */
  function UnitHere(u: Unit, st: State, hit: bool): seq<State> {
    var exit := [State(st.offset + u.size, 0)];
    if !u.repeat then []
    else match u.kind
      case Star => exit
      case Plus => if st.count > 0 then exit else []
      case Query => exit
      case Upto(_) => exit
      case Exact(_) => []
      case Range(lo, _) => if st.count >= lo then exit else []
      case PosStar => if hit then [] else exit
      case PosPlus => if st.count > 0 && !hit then exit else []
      case PosQuery => if hit then [] else exit
      case PosUpto(_) => if hit then [] else exit
  }

  /** After one more byte of the item. */
  function UnitNext(u: Unit, st: State): State {
    var exit := State(st.offset + u.size, 0);
    if !u.repeat then exit
    else match u.kind
      case Star => State(st.offset, 0)
      case Plus => State(st.offset, st.count + 1)
      case Query => exit
      case Upto(n) => if st.count + 1 >= n then exit else State(st.offset, st.count + 1)
      case Exact(n) => if st.count + 1 >= n then exit else State(st.offset, st.count + 1)
      case Range(_, hi) => if st.count + 1 >= hi && hi != 0 then exit else State(st.offset, st.count + 1)
      case PosStar => State(st.offset, 0)
      case PosPlus => State(st.offset, st.count + 1)
      case PosQuery => exit
      case PosUpto(n) => if st.count + 1 >= n then exit else State(st.offset, st.count + 1)
  }

  function Back(p: nat, n: nat): nat {
    if n <= p then p - n else 0
  }

  /** The states added for the same position; `e` is the final ket. */
  function OnHere(code: seq<int>, s: seq<byte>, e: nat, st: State, i: nat): seq<State> {
    var p := st.offset;
    var op := Cell(code, p);
    if OP_KET <= op <= OP_KETRMIN then
      if p == e then []
      else [State(p + 1 + LINK_SIZE, 0)] +
           (if op != OP_KET then [State(Back(p, Num(code, p + 1)), 0)] else [])
    else if op == OP_ALT then [State(KetFrom(code, p), 0)]
    else if op == OP_BRA || op == OP_SBRA then BranchStarts(code, p, 1 + LINK_SIZE)
    else if op == OP_CBRA || op == OP_SCBRA then BranchStarts(code, p, 3 + LINK_SIZE)
    else if op == OP_BRAZERO || op == OP_BRAMINZERO then
      [State(p + 1, 0), State(KetFrom(code, p + 1) + 1 + LINK_SIZE, 0)]
    else if IsZeroOp(op) then if i <= |s| && ZeroHolds(op, s, i) then [State(p + 1, 0)] else []
    else if op == OP_END then []
    else UnitHere(UnitAt(code, p), st, i < |s| && Hit(UnitAt(code, p).x, s[i]))
  }

  /** The states added for the next position. */
  function OnNext(code: seq<int>, s: seq<byte>, st: State, i: nat): seq<State> {
    if IsUnitOp(Cell(code, st.offset)) && i < |s| && Hit(UnitAt(code, st.offset).x, s[i])
    then [UnitNext(UnitAt(code, st.offset), st)] else []
  }

  predicate Step(code: seq<int>, s: seq<byte>, e: nat, x: Conf, y: Conf) {
    (y.i == x.i && y.st in OnHere(code, s, e, x.st, x.i)) ||
    (y.i == x.i + 1 && y.st in OnNext(code, s, x.st, x.i))
  }

  ghost predicate Path(code: seq<int>, s: seq<byte>, e: nat, n: nat, x: Conf, y: Conf) {
    if n == 0 then x == y
    else exists z :: Step(code, s, e, x, z) && Path(code, s, e, n - 1, z, y)
  }

  lemma {:induction false} PathJoin(code: seq<int>, s: seq<byte>, e: nat, n: nat, m: nat, x: Conf, y: Conf, z: Conf)
    requires Path(code, s, e, n, x, y) && Path(code, s, e, m, y, z)
    ensures Path(code, s, e, n + m, x, z)
    decreases n
  {
    hide Step;
    if n > 0 {
      var w :| Step(code, s, e, x, w) && Path(code, s, e, n - 1, w, y);
      PathJoin(code, s, e, n - 1, m, w, y, z);
    }
  }

  lemma PathSelf(code: seq<int>, s: seq<byte>, e: nat, x: Conf)
    ensures Path(code, s, e, 0, x, x)
  {}

  lemma PathOne(code: seq<int>, s: seq<byte>, e: nat, x: Conf, y: Conf)
    requires Step(code, s, e, x, y)
    ensures Path(code, s, e, 1, x, y)
  {
    hide Step;
    PathSelf(code, s, e, y);
  }

  lemma PathCons(code: seq<int>, s: seq<byte>, e: nat, n: nat, x: Conf, y: Conf, z: Conf)
    requires Step(code, s, e, x, y) && Path(code, s, e, n, y, z)
    ensures Path(code, s, e, n + 1, x, z)
  {
    hide Step;
  }

  // ---- Opcodes where they lie in the code ----

  /** The unit an item is compiled to. */
  function ItemUnit(it: Item): Unit
    requires it.One? || it.Rep?
  {
    if it.One? then Unit(it.x, false, Star, SingleSize(it.x))
    else Unit(it.x, true, it.kind, RepSize(it.x, it.kind))
  }

  lemma UnitAtItem(code: seq<int>, p: nat, it: Item)
    requires (it.One? || it.Rep?) && WFItem(it) && ItemAt(code, p, it)
    requires p + ItemSize(it) < |code| && !(OP_CRSTAR <= code[p + ItemSize(it)] <= OP_CRMINRANGE)
    ensures UnitAt(code, p) == ItemUnit(it) && IsUnitOp(Cell(code, p))
  {
    if it.Rep? {
      assert RepAt(code, p, it.x, it.kind, it.lazy);
    }
  }
}
