/** check_auto_possessive(): which unlimited repeats may be made possessive
    because the next item cannot match what they might give back. */
module AutoPossess {
  import opened Opcodes
  import opened Tree
  import opened Pattern

  /** A kind of byte, by its opcode when it is repeated, by its escape when it
      comes next. Not(c) is [^c]. */
  datatype Class = Same(c: byte) | Not(c: byte)
    | Digit | NotDigit | Space | NotSpace | Word | NotWord
    | Hspace | NotHspace | Vspace | NotVspace | AnyNl | Other

  predicate IsHspace(c: byte) { c == 0x09 || c == 0x20 || c == 0xa0 }

  predicate IsVspace(c: byte) { 0x0a <= c <= 0x0d || c == 0x85 }

  /** The bytes that a match of the class can start with. */
  predicate Takes(k: Class, c: byte) {
    match k
    case Same(d) => c == d
    case Not(d) => c != d
    case Digit => IsDigit(c)
    case NotDigit => !IsDigit(c)
    case Space => IsSpace(c)
    case NotSpace => !IsSpace(c)
    case Word => IsWord(c)
    case NotWord => !IsWord(c)
    case Hspace => IsHspace(c)
    case NotHspace => !IsHspace(c)
    case Vspace => IsVspace(c)
    case NotVspace => !IsVspace(c)
    case AnyNl => IsVspace(c)
    case Other => true
  }

  /** The table for a repeated class before one character. */
  predicate BeforeChar(k: Class, next: byte) {
    match k
    case Same(c) => c != next
    case Not(c) => c == next
    case Digit => next > 127 || !IsDigit(next)
    case NotDigit => next <= 127 && IsDigit(next)
    case Space => next > 127 || !IsSpace(next)
    case NotSpace => next <= 127 && IsSpace(next)
    case Word => next > 127 || !IsWord(next)
    case NotWord => next <= 127 && IsWord(next)
    case Hspace => !IsHspace(next)
    case NotHspace => IsHspace(next)
    case Vspace => !IsVspace(next)
    case AnyNl => !IsVspace(next)
    case NotVspace => IsVspace(next)
    case Other => false
  }

  /** The table for one repeated character before an escape. */
  predicate AfterChar(c: byte, next: Class) {
    match next
    case Digit => c > 127 || !IsDigit(c)
    case NotDigit => c <= 127 && IsDigit(c)
    case Space => c > 127 || !IsSpace(c)
    case NotSpace => c <= 127 && IsSpace(c)
    case Word => c > 127 || !IsWord(c)
    case NotWord => c <= 127 && IsWord(c)
    case Hspace => !IsHspace(c)
    case NotHspace => IsHspace(c)
    case Vspace => !IsVspace(c)
    case NotVspace => IsVspace(c)
    case _ => false
  }

  /** The table: repeated class, next class. */
  predicate Table(k: Class, next: Class) {
    if next.Same? then BeforeChar(k, next.c)
    else match k
      case Same(c) => AfterChar(c, next)
      case Digit => next.NotDigit? || next.Space? || next.NotWord? || next.Hspace? || next.Vspace? || next.AnyNl?
      case NotDigit => next.Digit?
      case Space => next.NotSpace? || next.Digit? || next.Word? || next.AnyNl?
      case NotSpace => next.Space? || next.Hspace? || next.Vspace?
      case Hspace => next.NotSpace? || next.NotHspace? || next.Digit? || next.Word? || next.Vspace? || next.AnyNl?
      case NotHspace => next.Hspace?
      case AnyNl => next.NotVspace? || next.Digit? || next.Word?
      case Vspace => next.NotVspace? || next.Digit? || next.Word?
      case NotVspace => next.Vspace? || next.AnyNl?
      case Word => next.NotWord? || next.Space? || next.Hspace? || next.Vspace? || next.AnyNl?
      case NotWord => next.Word? || next.Digit?
      case _ => false
  }

  /** The entries that are wrong: \s before \R, \S before \h or \v, \h before \S. */
  predicate Mistaken(k: Class, next: Class) {
    (k.Space? && next.AnyNl?) || (k.NotSpace? && (next.Hspace? || next.Vspace?)) || (k.Hspace? && next.NotSpace?)
  }

  /** A byte that both classes can start with. */
  function SharedByte(k: Class, next: Class): byte {
    if k.Space? then 0x0a else if next.Vspace? then 0x0b else 0xa0
  }

  /** Where the table says yes, no byte can belong to both items, unless the
      entry is one of the mistaken ones; those do share a byte. */
  lemma TableExact(k: Class, next: Class)
    requires Table(k, next)
    ensures (forall c: byte :: !(Takes(k, c) && Takes(next, c))) <==> !Mistaken(k, next)
  {
    if Mistaken(k, next) {
      var c := SharedByte(k, next);
      assert Takes(k, c) && Takes(next, c);
    }
  }

  /** Pairs without a byte in common that the table leaves out: a character
      before \R, and \v or \R before \h. */
  predicate Missed(k: Class, next: Class) {
    (k.Same? && next.AnyNl?) || ((k.Vspace? || k.AnyNl?) && next.Hspace?)
  }

  /** What comes next is a character or an escape, not [^c]. */
  predicate Known(k: Class, next: Class) { !k.Other? && !next.Other? && !next.Not? }

  /** Where the table says no, a byte belongs to both items, but for the pairs
      that it leaves out. */
  lemma TableComplete(k: Class, next: Class)
    requires Known(k, next) && !Table(k, next) && !Missed(k, next)
    ensures exists c: byte :: Takes(k, c) && Takes(next, c)
  {
    var c := if next.Same? then next.c else if k.Same? then k.c else Common(k, next);
    if !k.Same? && !next.Same? { CommonBoth(k, next); }
    assert Takes(k, c) && Takes(next, c);
  }

  /** A byte of both of two classes of more than one byte. */
  function Common(k: Class, next: Class): byte {
    if Takes(k, 9) && Takes(next, 9) then 9
    else if Takes(k, 10) && Takes(next, 10) then 10
    else if Takes(k, 11) && Takes(next, 11) then 11
    else if Takes(k, 33) && Takes(next, 33) then 33
    else if Takes(k, 48) && Takes(next, 48) then 48
    else if Takes(k, 49) && Takes(next, 49) then 49
    else if Takes(k, 65) && Takes(next, 65) then 65
    else if Takes(k, 32) && Takes(next, 32) then 32
    else if Takes(k, 34) && Takes(next, 34) then 34
    else 0xa0
  }

  lemma CommonBoth(k: Class, next: Class)
    requires Known(k, next) && !Table(k, next) && !Missed(k, next) && !k.Same? && !next.Same?
    ensures Takes(k, Common(k, next)) && Takes(next, Common(k, next))
  {}

  // ---- Items of a pattern ----

  function ClassOf(x: Single): Class {
    match x
    case Chr(c) => Same(c)
    case Set(_) => Other
    case Type(op) =>
      if op == OP_DIGIT then Digit else if op == OP_NOT_DIGIT then NotDigit
      else if op == OP_WHITESPACE then Space else if op == OP_NOT_WHITESPACE then NotSpace
      else if op == OP_WORDCHAR then Word else if op == OP_NOT_WORDCHAR then NotWord
      else Other
  }

  /** Whether an unlimited repeat of `x` is made possessive: the next item is a
      character or an escape, and no *, ? or {0, follows it in the text. */
  predicate AutoPossessive(x: Single, next: PBranch) {
    next.Then? && next.hd.Char? && !(next.hd.q.Quant? && next.hd.q.seen) && Table(ClassOf(x), ClassOf(next.hd.x))
  }

  /** The next item may be left out. */
  predicate LeftOut(next: PBranch) {
    next.Then? && !next.hd.Place? && next.hd.q.Quant? && next.hd.q.min == 0
  }

  /** Then no byte matches both items. */
  lemma AutoDisjoint(x: Single, y: Single)
    requires WFSingle(x) && WFSingle(y) && Table(ClassOf(x), ClassOf(y))
    ensures Disjoint(x, y)
  {
    TableExact(ClassOf(x), ClassOf(y));
    forall c: byte | Hit(x, c) && Hit(y, c) ensures false { TakesHit(x, c); TakesHit(y, c); }
  }

  lemma TakesHit(x: Single, c: byte)
    requires WFSingle(x)
    ensures Hit(x, c) ==> Takes(ClassOf(x), c)
    ensures !ClassOf(x).Other? ==> (Hit(x, c) <==> Takes(ClassOf(x), c))
  {}

  /** A character, or one of the escapes d D s S w W. */
  predicate Simple(x: Single) { x.Chr? || (x.Type? && OP_NOT_DIGIT <= x.op <= OP_WORDCHAR) }

  /** Between characters and these escapes the repeat is made possessive if and
      only if no byte matches both and the next item must be there, as far as
      the text shows. */
  lemma AutoExact(x: Single, next: PBranch)
    requires Simple(x) && next.Then? && next.hd.Char? && Simple(next.hd.x)
    ensures AutoPossessive(x, next) <==> !(next.hd.q.Quant? && next.hd.q.seen) && Disjoint(x, next.hd.x)
  {
    var y := next.hd.x;
    if Table(ClassOf(x), ClassOf(y)) {
      AutoDisjoint(x, y);
    } else {
      TableComplete(ClassOf(x), ClassOf(y));
      var c: byte :| Takes(ClassOf(x), c) && Takes(ClassOf(y), c);
      TakesHit(x, c);
      TakesHit(y, c);
    }
  }
}
