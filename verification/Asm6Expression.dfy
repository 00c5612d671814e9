/** asm6's precedence-climbing `eval` (asm6f.c) on classified tokens, and the expression trees that
    it inverts the printing of. */
module Asm6Expression {
  import opened CInt

  /** Binary operators; the source's `prec[]` gives their levels. */
  datatype BinOp =
    | Equal | NotEqual | Greater | GreaterEq | Less | LessEq | Plus | Minus | Mul | Div | Mod
    | And | Xor | Or | AndAnd | OrOr | LeftShift | RightShift

  datatype UnOp = Invert | Not | LowByte | HighByte | Posit | Negate

  const WHOLEEXP: nat := 0
  const UNARY: nat := 11

  function Prec(op: BinOp): (p: nat)
    ensures WHOLEEXP < p < UNARY
  {
    match op
    case OrOr => 1
    case AndAnd => 2
    case Or => 3
    case Xor => 4
    case And => 5
    case Equal => 6
    case NotEqual => 6
    case Greater => 7
    case GreaterEq => 7
    case Less => 7
    case LessEq => 7
    case LeftShift => 8
    case RightShift => 8
    case Plus => 9
    case Minus => 9
    case Mul => 10
    case Div => 10
    case Mod => 10
  }

  datatype Option = None | Some(val: int)

  /** A division or remainder by zero has no value. */
  function ApplyBin(op: BinOp, a: int, b: int): Option {
    match op
    case And => Some(Bitwise(AND, a, b))
    case AndAnd => Some(Truth(a != 0 && b != 0))
    case Or => Some(Bitwise(OR, a, b))
    case OrOr => Some(Truth(a != 0 || b != 0))
    case Xor => Some(Bitwise(XOR, a, b))
    case Plus => Some(Wrap32(a + b))
    case Minus => Some(Wrap32(a - b))
    case Mul => Some(Wrap32(a * b))
    case Div => if b == 0 then None else Some(Wrap32(Quotient(a, b)))
    case Mod => if b == 0 then None else Some(Remainder(a, b))
    case Equal => Some(Truth(a == b))
    case NotEqual => Some(Truth(a != b))
    case Greater => Some(Truth(a > b))
    case GreaterEq => Some(Truth(a >= b))
    case Less => Some(Truth(a < b))
    case LessEq => Some(Truth(a <= b))
    case LeftShift => Some(Wrap32(ShiftLeft(a, b)))
    case RightShift => Some(ShiftRight(a, b))
  }

  function ApplyUn(op: UnOp, a: int): int {
    match op
    case Invert => Complement(a)
    case Not => Truth(a == 0)
    case LowByte => Bitwise(AND, a, 0xFF)
    case HighByte => Bitwise(AND, ShiftRight(a, 8), 0xFF)
    case Posit => a
    case Negate => Wrap32(-a)
  }

  // ---------------------------------------------------------------- the evaluator

  datatype Token = Num(val: int) | Name(name: string) | UnTok(u: UnOp) | BinTok(b: BinOp) | Open | Close | Hash

  /** A table entry: a label or `=` symbol with its value, which may not be known yet, or a macro, which
      may be empty. */
  datatype Entry = Symbol(val: int, known: bool) | MacroName(empty: bool)

  datatype Error = NoError | DivZero | MissingOperand | IncompleteExp | UnknownLabel | MacroInExpression

  datatype Labels = Labels(table: map<string, Entry>, lastchance: bool)

  /** The cursor and the global flags of `eval`. */
  datatype State = State(rest: seq<Token>, dependant: bool, need: bool, err: Error)

  function Advance(s: State): State
    requires s.rest != []
  {
    s.(rest := s.rest[1..])
  }

  /** `getvalue` on a name. */
  function LookUp(s: State, name: string, labels: Labels): (int, State) {
    if name !in labels.table then
      (0, s.(dependant := true, need := true, err := if labels.lastchance then UnknownLabel else s.err))
    else
      match labels.table[name]
      case Symbol(v, known) => (v, if known then s else s.(dependant := true, need := true))
      case MacroName(empty) =>
        (0, s.(err := MacroInExpression, dependant := s.dependant || empty, need := s.need || empty))
  }

  function Eval(s: State, prec: nat, labels: Labels): (r: (int, State))
    ensures |r.1.rest| <= |s.rest|
    decreases |s.rest|, 1
  {
    var (v, t) := Operand(s, labels);
    Climb(v, t, prec, labels)
  }

  /** The `switch` on the first character. */
  function Operand(s: State, labels: Labels): (r: (int, State))
    ensures |r.1.rest| <= |s.rest|
    decreases |s.rest|, 0
  {
    if s.rest == [] then (0, s.(err := MissingOperand))
    else
      match s.rest[0]
      case Num(v) => (v, Advance(s))
      case Name(n) => LookUp(Advance(s), n, labels)
      case Open =>
        var (v, t) := Eval(Advance(s), WHOLEEXP, labels);
        (v, if t.rest != [] && t.rest[0] == Close then Advance(t) else t.(err := IncompleteExp))
      case Hash => Eval(Advance(s), WHOLEEXP, labels)
      case UnTok(u) =>
        var (v, t) := Eval(BeforeUnary(Advance(s), u, labels), UNARY, labels);
        (ApplyUn(u, v), t)
      case BinTok(_) => (0, s.(err := MissingOperand))
      case Close => (0, s.(err := MissingOperand))
  }

  /** The sign of a number, as opposed to an operator with two operands. */
  predicate IsSign(u: UnOp) {
    u.Posit? || u.Negate?
  }

  /** Before a sign is taken as an operator it is tried as a nameless label. On the last pass the failed
      attempt overwrites whatever error is pending with "unknown label", and that error is then dropped. */
  function BeforeUnary(s: State, u: UnOp, labels: Labels): State {
    if IsSign(u) && (labels.lastchance || s.err == UnknownLabel) then s.(err := NoError) else s
  }

  /** The operator loop: operators that bind tighter than `prec`, one after the other, until an error;
      an error leaves the cursor before its operator. */
  function Climb(v: int, s: State, prec: nat, labels: Labels): (r: (int, State))
    ensures |r.1.rest| <= |s.rest|
    decreases |s.rest|, 0
  {
    if s.rest != [] && s.rest[0].BinTok? && prec < Prec(s.rest[0].b) then
      var (w, t) := Eval(Advance(s), Prec(s.rest[0].b), labels);
      var (x, u) := ApplyOperator(s.rest[0].b, v, w, t);
      if u.err == NoError then Climb(x, u, prec, labels) else (x, u.(rest := s.rest))
    else (v, s)
  }

  /** Apply an operator: 0 once something is unresolved, the left operand on a division by zero. */
  function ApplyOperator(op: BinOp, a: int, b: int, s: State): (int, State) {
    if s.dependant then (0, s)
    else
      match ApplyBin(op, a, b)
      case None => (a, s.(err := DivZero))
      case Some(v) => (v, s)
  }

  // ---------------------------------------------------------------- expression trees

  datatype Expr = Lit(val: int) | Var(name: string) | Un(u: UnOp, e: Expr) | Bin(b: BinOp, l: Expr, r: Expr) | Paren(e: Expr)

  function Strength(e: Expr): nat {
    if e.Bin? then Prec(e.b) else 12
  }

  /** The printed form needs no further parentheses. */
  predicate WellPrinted(e: Expr) {
    match e
    case Lit(_) => true
    case Var(_) => true
    case Un(_, a) => UNARY < Strength(a) && WellPrinted(a)
    case Bin(b, l, r) => Prec(b) <= Strength(l) && Prec(b) < Strength(r) && WellPrinted(l) && WellPrinted(r)
    case Paren(a) => WellPrinted(a)
  }

  function Print(e: Expr): seq<Token> {
    match e
    case Lit(v) => [Num(v)]
    case Var(n) => [Name(n)]
    case Un(u, a) => [UnTok(u)] + Print(a)
    case Bin(b, l, r) => Print(l) + [BinTok(b)] + Print(r)
    case Paren(a) => [Open] + Print(a) + [Close]
  }

  /** Every name in `e` has a known value. */
  predicate Resolved(e: Expr, labels: Labels) {
    match e
    case Lit(_) => true
    case Var(n) => n in labels.table && labels.table[n].Symbol? && labels.table[n].known
    case Un(_, a) => Resolved(a, labels)
    case Bin(_, l, r) => Resolved(l, labels) && Resolved(r, labels)
    case Paren(a) => Resolved(a, labels)
  }

  /** The value of a resolved tree; none if it divides by zero. */
  function Denote(e: Expr, labels: Labels): Option
    requires Resolved(e, labels)
  {
    match e
    case Lit(v) => Some(v)
    case Var(n) => Some(labels.table[n].val)
    case Un(u, a) => (match Denote(a, labels) case None => None case Some(v) => Some(ApplyUn(u, v)))
    case Bin(b, l, r) =>
      (match Denote(l, labels)
       case None => None
       case Some(x) => match Denote(r, labels) case None => None case Some(y) => ApplyBin(b, x, y))
    case Paren(a) => Denote(a, labels)
  }

  predicate HasValue(e: Expr, labels: Labels) {
    Resolved(e, labels) && Denote(e, labels).Some?
  }

  // ---------------------------------------------------------------- where an error ends up

  /** Looking the name up raises an error: there is no such label on the last pass, or it is a macro. */
  predicate Fails(n: string, labels: Labels) {
    if n in labels.table then labels.table[n].MacroName? else labels.lastchance
  }

  /** Looking the name up yields a number, be it the 0 of a macro with a body. */
  predicate Known(n: string, labels: Labels) {
    n in labels.table && (if labels.table[n].Symbol? then labels.table[n].known else !labels.table[n].empty)
  }

  predicate AllKnown(e: Expr, labels: Labels) {
    match e
    case Lit(_) => true
    case Var(n) => Known(n, labels)
    case Un(_, a) => AllKnown(a, labels)
    case Bin(_, l, r) => AllKnown(l, labels) && AllKnown(r, labels)
    case Paren(a) => AllKnown(a, labels)
  }

  /** The number a tree comes to if macros count as 0 and a division by zero as its dividend. */
  function Value(e: Expr, labels: Labels): int {
    match e
    case Lit(v) => v
    case Var(n) => if n in labels.table && labels.table[n].Symbol? then labels.table[n].val else 0
    case Un(u, a) => ApplyUn(u, Value(a, labels))
    case Bin(b, l, r) =>
      var x := ApplyBin(b, Value(l, labels), Value(r, labels));
      if x.Some? then x.val else Value(l, labels)
    case Paren(a) => Value(a, labels)
  }

  /** What has become of errors when a tree has been dealt with: there is none; one is pending, raised by
      the last thing evaluated; or one has stopped the operator loop. */
  datatype Mark = Quiet | Pending | Stopped

  /** The fate of the errors in `e`, on the tree alone. `pending`: an error was pending before; `loose`: a
      name before was unresolved, so that divisions by zero pass. A name that fails leaves its error
      pending, through parentheses and unary operators. An operator stops on an error unless it was pending
      in the left operand and the right operand ends without one, which takes a sign on the last pass. */
  function Fate(e: Expr, pending: bool, loose: bool, labels: Labels): Mark {
    match e
    case Lit(_) => if pending then Pending else Quiet
    case Var(n) => if pending || Fails(n, labels) then Pending else Quiet
    case Un(u, a) => Fate(a, pending && !(IsSign(u) && labels.lastchance), loose, labels)
    case Paren(a) => Fate(a, pending, loose, labels)
    case Bin(b, l, r) =>
      var left := Fate(l, pending, loose, labels);
      var looser := loose || !AllKnown(l, labels);
      if left == Stopped || Fate(r, left == Pending, looser, labels) != Quiet then Stopped
      else if !looser && AllKnown(r, labels) && ApplyBin(b, Value(l, labels), Value(r, labels)).None? then Stopped
      else Quiet
  }

  /** An expression that raises an error and ends without one. */
  predicate Lost(e: Expr, labels: Labels) {
    !HasValue(e, labels) && SomeNameFails(e, labels) && Fate(e, false, false, labels) == Quiet
  }

  predicate SomeNameFails(e: Expr, labels: Labels) {
    match e
    case Lit(_) => false
    case Var(n) => Fails(n, labels)
    case Un(_, a) => SomeNameFails(a, labels)
    case Bin(_, l, r) => SomeNameFails(l, labels) || SomeNameFails(r, labels)
    case Paren(a) => SomeNameFails(a, labels)
  }

  // ---------------------------------------------------------------- the fate of errors is settled

  /** Whether something was unresolved once `e` has been dealt with, as far as that went. */
  function LooseAfter(e: Expr, pending: bool, loose: bool, labels: Labels): bool {
    match e
    case Lit(_) => loose
    case Var(n) => loose || !Known(n, labels)
    case Un(u, a) => LooseAfter(a, pending && !(IsSign(u) && labels.lastchance), loose, labels)
    case Paren(a) => LooseAfter(a, pending, loose, labels)
    case Bin(b, l, r) =>
      var left := Fate(l, pending, loose, labels);
      if left == Stopped then LooseAfter(l, pending, loose, labels)
      else LooseAfter(r, left == Pending, loose || !AllKnown(l, labels), labels)
  }

  lemma {:induction false} LooseIsUnknown(e: Expr, pending: bool, loose: bool, labels: Labels)
    ensures loose || AllKnown(e, labels) ==> LooseAfter(e, pending, loose, labels) == loose
    ensures Fate(e, pending, loose, labels) != Stopped ==>
      LooseAfter(e, pending, loose, labels) == (loose || !AllKnown(e, labels))
    decreases e
  {
    match e
    case Lit(_) =>
    case Var(_) =>
    case Un(u, a) => LooseIsUnknown(a, pending && !(IsSign(u) && labels.lastchance), loose, labels);
    case Paren(a) => LooseIsUnknown(a, pending, loose, labels);
    case Bin(_, l, r) =>
      LooseIsUnknown(l, pending, loose, labels);
      LooseIsUnknown(r, Fate(l, pending, loose, labels) == Pending, loose || !AllKnown(l, labels), labels);
  }

  /** What leaves an error pending does so whatever else was unresolved. */
  lemma {:induction false} PendingAgain(e: Expr, pending: bool, again: bool, loose: bool, looser: bool, labels: Labels)
    requires Fate(e, pending, loose, labels) == Pending && (pending ==> again)
    ensures Fate(e, again, looser, labels) == Pending
    decreases e
  {
    match e
    case Lit(_) =>
    case Var(_) =>
    case Un(u, a) =>
      var cleared := IsSign(u) && labels.lastchance;
      PendingAgain(a, pending && !cleared, again && !cleared, loose, looser, labels);
    case Paren(a) => PendingAgain(a, pending, again, loose, looser, labels);
  }

  /** A tree that did not end quietly will not do so when it is gone over again, with the error it led to
      pending. */
  lemma {:induction false} FateRepeats(e: Expr, pending: bool, again: bool, loose: bool, labels: Labels)
    requires Fate(e, pending, loose, labels) != Quiet && (pending ==> again)
    ensures var after := LooseAfter(e, pending, loose, labels);
      Fate(e, again, after, labels) == Fate(e, pending, loose, labels) && LooseAfter(e, again, after, labels) == after
    decreases e, 0
  {
    match e
    case Lit(_) =>
    case Var(_) =>
    case Un(u, a) =>
      var cleared := IsSign(u) && labels.lastchance;
      FateRepeats(a, pending && !cleared, again && !cleared, loose, labels);
    case Paren(a) => FateRepeats(a, pending, again, loose, labels);
    case Bin(b, l, r) =>
      var left := Fate(l, pending, loose, labels);
      if left == Stopped {
        FateRepeats(l, pending, again, loose, labels);
      } else {
        RightRepeats(b, l, r, pending, again, loose, labels);
      }
  }

  lemma {:induction false} RightRepeats(b: BinOp, l: Expr, r: Expr, pending: bool, again: bool, loose: bool, labels: Labels)
    requires Fate(l, pending, loose, labels) != Stopped && (pending ==> again)
    requires Fate(Bin(b, l, r), pending, loose, labels) == Stopped
    ensures var after := LooseAfter(Bin(b, l, r), pending, loose, labels);
      Fate(Bin(b, l, r), again, after, labels) == Stopped && LooseAfter(Bin(b, l, r), again, after, labels) == after
    decreases r, 1
  {
    var left := Fate(l, pending, loose, labels);
    var looser := loose || !AllKnown(l, labels);
    var after := LooseAfter(r, left == Pending, looser, labels);
    LooseIsUnknown(r, left == Pending, looser, labels);
    LooseIsUnknown(l, again, after, labels);
    if left == Pending {
      PendingAgain(l, pending, again, loose, after, labels);
    }
    var left' := Fate(l, again, after, labels);
    LooseIsUnknown(r, left' == Pending, after, labels);
    if Fate(r, left == Pending, looser, labels) != Quiet {
      FateRepeats(r, left == Pending, left' == Pending, looser, labels);
    }
  }

  // ---------------------------------------------------------------- evaluation follows the tree

  /** The level of the operator that `toks` begins with, 0 if it begins with something else. */
  function NextPrec(toks: seq<Token>): nat {
    if toks != [] && toks[0].BinTok? then Prec(toks[0].b) else 0
  }

  /** "Unknown label" is an error of the last pass. */
  predicate Sane(s: State, labels: Labels) {
    s.err == UnknownLabel ==> labels.lastchance
  }

  /** Applying the operator at the cursor gives an error, whatever its left operand. */
  ghost predicate AttemptFails(q: State, labels: Labels)
    requires q.rest != [] && q.rest[0].BinTok?
  {
    var (w, t) := Eval(Advance(q), Prec(q.rest[0].b), labels);
    t.dependant == q.dependant && Sane(t, labels)
    && (t.err != NoError || (!t.dependant && ApplyBin(q.rest[0].b, 0, w).None?))
  }

  /** The same cursor and the same verdict on unresolved names, with some error pending. */
  predicate SamePlace(q: State, u: State, labels: Labels) {
    q.rest == u.rest && q.dependant == u.dependant && q.err != NoError && Sane(q, labels)
  }

  /** An error is pending and the cursor at an operator that will only raise another one: the callers that
      come back to that operator stop there too. */
  ghost predicate Stuck(u: State, labels: Labels) {
    && u.err != NoError && Sane(u, labels) && u.rest != [] && u.rest[0].BinTok?
    && forall q :: SamePlace(q, u, labels) ==> AttemptFails(q, labels)
  }

  lemma ClimbStuck(x: int, u: State, prec: nat, labels: Labels)
    requires Stuck(u, labels)
    ensures Stuck(Climb(x, u, prec, labels).1, labels) && Climb(x, u, prec, labels).1.dependant == u.dependant
  {
    assert SamePlace(u, u, labels);
    var t := Climb(x, u, prec, labels).1;
    assert t.err != NoError && SamePlace(t, u, labels);
    assert forall q :: SamePlace(q, t, labels) ==> SamePlace(q, u, labels);
  }

  /** Evaluating a printed tree is having dealt with it, with the errors it comes to, and going on with what
      follows, or getting stuck in it. */
  lemma {:induction false} Evaluates(e: Expr, s: State, tail: seq<Token>, prec: nat, labels: Labels) returns (v: int, t: State)
    requires WellPrinted(e) && Sane(s, labels) && s.rest == Print(e) + tail
    requires prec < Strength(e) && NextPrec(tail) <= Strength(e)
    ensures Outcome(e, s, tail, prec, v, t, labels)
    decreases e, 1
  {
    match e
    case Lit(_) =>
      v, t := Operand(s, labels).0, Operand(s, labels).1;
      assert s.rest[1..] == tail;
    case Var(_) =>
      v, t := Operand(s, labels).0, Operand(s, labels).1;
      assert s.rest[1..] == tail;
    case Un(u, a) => v, t := UnaryEvaluates(u, a, s, tail, prec, labels);
    case Paren(a) => v, t := ParenEvaluates(a, s, tail, prec, labels);
    case Bin(b, l, r) => v, t := BinEvaluates(b, l, r, s, tail, prec, labels);
  }

  /** What `eval` makes of `e`, in terms of the tree. */
  ghost predicate Outcome(e: Expr, s: State, tail: seq<Token>, prec: nat, v: int, t: State, labels: Labels) {
    var mark := Fate(e, s.err != NoError, s.dependant, labels);
    && t.dependant == LooseAfter(e, s.err != NoError, s.dependant, labels) && Sane(t, labels)
    && (mark == Stopped ==> Stuck(t, labels) && Eval(s, prec, labels).1 == t)
    && (mark != Stopped ==>
          t.rest == tail && (t.err != NoError <==> mark == Pending) && Eval(s, prec, labels) == Climb(v, t, prec, labels)
          && (!t.dependant ==> v == Value(e, labels) && t.need == s.need))
  }

  /** An operand that ends stuck leaves `eval` stuck. */
  lemma OperandStuck(s: State, prec: nat, labels: Labels) returns (t: State)
    requires Stuck(Operand(s, labels).1, labels)
    ensures Eval(s, prec, labels).1 == t && Stuck(t, labels) && t.dependant == Operand(s, labels).1.dependant
  {
    var (w, u) := Operand(s, labels);
    ClimbStuck(w, u, prec, labels);
    t := Climb(w, u, prec, labels).1;
  }

  lemma StuckWithError(u: State, err: Error, labels: Labels)
    requires Stuck(u, labels) && err != NoError && err != UnknownLabel
    ensures Stuck(u.(err := err), labels)
  {
    assert forall q :: SamePlace(q, u.(err := err), labels) ==> SamePlace(q, u, labels);
  }

  lemma {:induction false} UnaryEvaluates(u: UnOp, a: Expr, s: State, tail: seq<Token>, prec: nat, labels: Labels)
      returns (v: int, t: State)
    requires WellPrinted(Un(u, a)) && Sane(s, labels) && s.rest == Print(Un(u, a)) + tail && prec < 12
    ensures Outcome(Un(u, a), s, tail, prec, v, t, labels)
    decreases a, 2
  {
    assert s.rest[1..] == Print(a) + tail;
    v, t := Evaluates(a, BeforeUnary(Advance(s), u, labels), tail, UNARY, labels);
    if Fate(Un(u, a), s.err != NoError, s.dependant, labels) == Stopped {
      t := OperandStuck(s, prec, labels);
    } else {
      v := ApplyUn(u, v);
    }
  }

  /** Behind the closing parenthesis. */
  lemma ParenClosed(a: Expr, s: State, tail: seq<Token>, v: int, u: State, prec: nat, labels: Labels) returns (t: State)
    requires s.rest == [Open] + (Print(a) + ([Close] + tail))
    requires Fate(a, s.err != NoError, s.dependant, labels) != Stopped
    requires Outcome(a, Advance(s), [Close] + tail, WHOLEEXP, v, u, labels)
    ensures Outcome(Paren(a), s, tail, prec, v, t, labels)
  {
    assert ([Close] + tail)[1..] == tail;
    t := Advance(u);
    assert Operand(s, labels) == (v, t);
  }

  lemma {:induction false} ParenEvaluates(a: Expr, s: State, tail: seq<Token>, prec: nat, labels: Labels)
      returns (v: int, t: State)
    requires WellPrinted(Paren(a)) && Sane(s, labels) && s.rest == Print(Paren(a)) + tail && prec < 12
    ensures Outcome(Paren(a), s, tail, prec, v, t, labels)
    decreases a, 2
  {
    assert s.rest[1..] == Print(a) + ([Close] + tail);
    v, t := Evaluates(a, Advance(s), [Close] + tail, WHOLEEXP, labels);
    if Fate(a, s.err != NoError, s.dependant, labels) == Stopped {
      StuckWithError(t, IncompleteExp, labels);
      t := OperandStuck(s, prec, labels);
    } else {
      t := ParenClosed(a, s, tail, v, t, prec, labels);
    }
  }

  /** The right operand of a failed operator, tried again. */
  lemma {:induction false} OperatorStuck(b: BinOp, r: Expr, u: State, tail: seq<Token>, labels: Labels)
    requires WellPrinted(r) && Prec(b) < Strength(r) && NextPrec(tail) <= Prec(b)
    requires u.err != NoError && Sane(u, labels) && u.rest == [BinTok(b)] + (Print(r) + tail)
    requires LooseAfter(r, true, u.dependant, labels) == u.dependant
    requires Fate(r, true, u.dependant, labels) == Quiet ==> !u.dependant && ApplyBin(b, 0, Value(r, labels)).None?
    ensures Stuck(u, labels)
    decreases r, 2, 0
  {
    assert u.rest[1..] == Print(r) + tail;
    forall q | SamePlace(q, u, labels) ensures AttemptFails(q, labels) {
      var w, t := Evaluates(r, Advance(q), tail, Prec(b), labels);
    }
  }

  lemma {:induction false} BinEvaluates(b: BinOp, l: Expr, r: Expr, s: State, tail: seq<Token>, prec: nat, labels: Labels)
      returns (v: int, t: State)
    requires WellPrinted(Bin(b, l, r)) && Sane(s, labels) && s.rest == Print(Bin(b, l, r)) + tail
    requires prec < Prec(b) && NextPrec(tail) <= Prec(b)
    ensures Outcome(Bin(b, l, r), s, tail, prec, v, t, labels)
    decreases Bin(b, l, r), 0
  {
    var after := [BinTok(b)] + (Print(r) + tail);
    assert s.rest == Print(l) + after;
    v, t := Evaluates(l, s, after, prec, labels);
    LooseIsUnknown(l, s.err != NoError, s.dependant, labels);
    if Fate(l, s.err != NoError, s.dependant, labels) != Stopped {
      v, t := RightEvaluates(b, l, r, s, v, t, tail, prec, labels);
    }
  }

  lemma {:induction false} RightEvaluates(b: BinOp, l: Expr, r: Expr, s: State, x: int, u: State, tail: seq<Token>,
                                         prec: nat, labels: Labels) returns (v: int, t: State)
    requires WellPrinted(Bin(b, l, r)) && prec < Prec(b) && NextPrec(tail) <= Prec(b)
    requires Fate(l, s.err != NoError, s.dependant, labels) != Stopped
    requires Outcome(l, s, [BinTok(b)] + (Print(r) + tail), prec, x, u, labels)
    ensures Outcome(Bin(b, l, r), s, tail, prec, v, t, labels)
    decreases r, 3
  {
    assert u.rest[1..] == Print(r) + tail;
    var w, z := Evaluates(r, Advance(u), tail, Prec(b), labels);
    LooseIsUnknown(l, s.err != NoError, s.dependant, labels);
    LooseIsUnknown(r, u.err != NoError, u.dependant, labels);
    if Fate(Bin(b, l, r), s.err != NoError, s.dependant, labels) == Quiet {
      v, t := RightQuiet(b, l, r, s, x, u, w, z, tail, prec, labels);
    } else {
      RightFails(b, r, u, w, z, tail, labels);
      v := x;
      t := OperatorStops(b, r, x, u, z, tail, prec, labels);
    }
  }

  /** A right operand that did not end quietly, or by which the left one cannot be divided. */
  lemma RightFails(b: BinOp, r: Expr, u: State, w: int, z: State, tail: seq<Token>, labels: Labels)
    requires u.rest == [BinTok(b)] + (Print(r) + tail) && NextPrec(tail) <= Prec(b)
    requires Outcome(r, Advance(u), tail, Prec(b), w, z, labels)
    requires Fate(r, u.err != NoError, u.dependant, labels) == Quiet ==>
      !z.dependant && ApplyBin(b, 0, Value(r, labels)).None?
    ensures Failing(b, u, z, labels)
  {
    assert Fate(r, u.err != NoError, u.dependant, labels) != Stopped ==> Eval(Advance(u), Prec(b), labels) == (w, z);
  }

  /** Evaluating the right operand of the operator `b` at the cursor of `u` ends in `z`, with an error or a
      zero divisor. */
  ghost predicate Failing(b: BinOp, u: State, z: State, labels: Labels) {
    && u.rest != [] && u.rest[0] == BinTok(b) && Eval(Advance(u), Prec(b), labels).1 == z && Sane(z, labels)
    && (z.err != NoError || (!z.dependant && ApplyBin(b, 0, Eval(Advance(u), Prec(b), labels).0).None?))
  }

  lemma ClimbFails(b: BinOp, x: int, u: State, z: State, prec: nat, labels: Labels)
    requires Failing(b, u, z, labels) && prec < Prec(b)
    ensures var t := Climb(x, u, prec, labels).1;
      t.err != NoError && Sane(t, labels) && t.rest == u.rest && t.dependant == z.dependant
  {
    var (w, z) := Eval(Advance(u), Prec(b), labels);
    assert ApplyOperator(b, x, w, z).1.err != NoError;
  }

  /** The operator, its right operand dealt with, is applied without an error. */
  lemma RightQuiet(b: BinOp, l: Expr, r: Expr, s: State, x: int, u: State, w: int, z: State, tail: seq<Token>,
                   prec: nat, labels: Labels) returns (v: int, t: State)
    requires prec < Prec(b) && NextPrec(tail) <= Prec(b)
    requires Fate(Bin(b, l, r), s.err != NoError, s.dependant, labels) == Quiet
    requires u.dependant == (s.dependant || !AllKnown(l, labels)) && z.dependant == (u.dependant || !AllKnown(r, labels))
    requires Outcome(l, s, [BinTok(b)] + (Print(r) + tail), prec, x, u, labels)
    requires Outcome(r, Advance(u), tail, Prec(b), w, z, labels)
    ensures Outcome(Bin(b, l, r), s, tail, prec, v, t, labels)
  {
    assert Eval(Advance(u), Prec(b), labels) == (w, z);
    v, t := ApplyOperator(b, x, w, z).0, z;
    assert Eval(s, prec, labels) == Climb(x, u, prec, labels) == Climb(v, t, prec, labels);
  }

  /** The operator loop stops at the operator at the cursor of `u`, whose right operand is `r`. */
  lemma {:induction false} OperatorStops(b: BinOp, r: Expr, x: int, u: State, z: State, tail: seq<Token>, prec: nat,
                                        labels: Labels) returns (t: State)
    requires WellPrinted(r) && prec < Prec(b) < Strength(r) && NextPrec(tail) <= Prec(b)
    requires u.rest == [BinTok(b)] + (Print(r) + tail) && Failing(b, u, z, labels)
    requires z.dependant == LooseAfter(r, u.err != NoError, u.dependant, labels)
    requires Fate(r, u.err != NoError, u.dependant, labels) == Quiet ==>
      !u.dependant && AllKnown(r, labels) && ApplyBin(b, 0, Value(r, labels)).None?
    ensures Stuck(t, labels) && Climb(x, u, prec, labels).1 == t && t.dependant == z.dependant
    decreases r, 2, 1
  {
    t := Climb(x, u, prec, labels).1;
    ClimbFails(b, x, u, z, prec, labels);
    if Fate(r, u.err != NoError, u.dependant, labels) != Quiet {
      FateRepeats(r, u.err != NoError, true, u.dependant, labels);
    } else {
      LooseIsUnknown(r, true, t.dependant, labels);
      LooseIsUnknown(r, u.err != NoError, u.dependant, labels);
    }
    OperatorStuck(b, r, t, tail, labels);
  }

  // ---------------------------------------------------------------- what eval ends with

  /** The end of `eval` on a printed tree, on any pass: without an error exactly if the errors in the tree
      are all lost. Then it is at the first token after the tree, marked exactly if a name is unresolved, and
      if not, with the tree's value. */
  lemma EvalEnds(e: Expr, tail: seq<Token>, need: bool, labels: Labels)
    requires WellPrinted(e) && NextPrec(tail) == 0
    ensures var (v, t) := Eval(State(Print(e) + tail, false, need, NoError), WHOLEEXP, labels);
      && (t.err == NoError <==> Fate(e, false, false, labels) == Quiet)
      && (t.err == NoError ==> t.rest == tail && (t.dependant <==> !AllKnown(e, labels)))
      && (t.err == NoError && !t.dependant ==> v == Value(e, labels) && t.need == need)
  {
    var v, t := Evaluates(e, State(Print(e) + tail, false, need, NoError), tail, WHOLEEXP, labels);
    LooseIsUnknown(e, false, false, labels);
  }

  /** A resolved tree raises no error but a division by zero. */
  lemma {:induction false} ResolvedFate(e: Expr, labels: Labels)
    requires Resolved(e, labels)
    ensures AllKnown(e, labels) && !SomeNameFails(e, labels)
    ensures HasValue(e, labels) ==> Fate(e, false, false, labels) == Quiet && Value(e, labels) == Denote(e, labels).val
    ensures !HasValue(e, labels) ==> Fate(e, false, false, labels) == Stopped
    decreases e
  {
    match e
    case Lit(_) =>
    case Var(_) =>
    case Un(_, a) => ResolvedFate(a, labels);
    case Bin(_, l, r) =>
      ResolvedFate(l, labels);
      ResolvedFate(r, labels);
    case Paren(a) => ResolvedFate(a, labels);
  }

  /** A known name that is not resolved is a macro's; on the last pass so may a missing one be what fails. */
  lemma {:induction false} UnresolvedFails(e: Expr, labels: Labels)
    requires AllKnown(e, labels) || (labels.lastchance && Settled(e, labels))
    ensures !Resolved(e, labels) ==> SomeNameFails(e, labels)
    decreases e
  {
    match e
    case Lit(_) =>
    case Var(_) =>
    case Un(_, a) => UnresolvedFails(a, labels);
    case Bin(_, l, r) =>
      UnresolvedFails(l, labels);
      UnresolvedFails(r, labels);
    case Paren(a) => UnresolvedFails(a, labels);
  }

  predicate HasSign(e: Expr) {
    match e
    case Lit(_) => false
    case Var(_) => false
    case Un(u, a) => IsSign(u) || HasSign(a)
    case Bin(_, l, r) => HasSign(l) || HasSign(r)
    case Paren(a) => HasSign(a)
  }

  /** It takes a sign and the last pass to lose an error. */
  lemma {:induction false} OnlySignsLose(e: Expr, pending: bool, loose: bool, labels: Labels)
    requires !HasSign(e) || !labels.lastchance
    ensures pending || SomeNameFails(e, labels) ==> Fate(e, pending, loose, labels) != Quiet
    decreases e
  {
    match e
    case Lit(_) =>
    case Var(_) =>
    case Un(_, a) => OnlySignsLose(a, pending, loose, labels);
    case Bin(_, l, r) =>
      OnlySignsLose(l, pending, loose, labels);
      OnlySignsLose(r, Fate(l, pending, loose, labels) == Pending, loose || !AllKnown(l, labels), labels);
    case Paren(a) => OnlySignsLose(a, pending, loose, labels);
  }

  /** An unresolved name or an error. */
  predicate Failed(s: State) {
    s.dependant || s.err != NoError
  }

  /** A tree without a value that is nevertheless evaluated as if it had one: its failing names are macros
      with a body, which count as 0, and their errors are lost. */
  predicate Mistaken(e: Expr, labels: Labels) {
    Lost(e, labels) && AllKnown(e, labels)
  }

  /** `eval` inverts printing: it ends without an error or an unresolved name exactly when the tree has a
      value, or is mistaken for one that has. Then it returns that value and stops at the first token after
      the tree. Short of the last pass, or without signs, nothing is mistaken. */
  lemma EvalInvertsPrint(e: Expr, tail: seq<Token>, need: bool, labels: Labels)
    requires WellPrinted(e) && NextPrec(tail) == 0
    ensures var (v, t) := Eval(State(Print(e) + tail, false, need, NoError), WHOLEEXP, labels);
      && (!Failed(t) <==> HasValue(e, labels) || Mistaken(e, labels))
      && (!Failed(t) ==> v == Value(e, labels) && t == State(tail, false, need, NoError))
      && (HasValue(e, labels) ==> v == Denote(e, labels).val)
    ensures !HasSign(e) || !labels.lastchance ==> !Mistaken(e, labels)
  {
    EvalEnds(e, tail, need, labels);
    if Resolved(e, labels) {
      ResolvedFate(e, labels);
    } else if AllKnown(e, labels) {
      UnresolvedFails(e, labels);
    }
    if !HasSign(e) || !labels.lastchance {
      OnlySignsLose(e, false, false, labels);
    }
  }

  // ---------------------------------------------------------------- printing with parentheses

  /** `e` with parentheses added exactly where the precedence table needs them. */
  function AddParens(e: Expr): Expr {
    match e
    case Lit(_) => e
    case Var(_) => e
    case Un(u, a) => Un(u, Guard(AddParens(a), 12))
    case Bin(b, l, r) => Bin(b, Guard(AddParens(l), Prec(b)), Guard(AddParens(r), Prec(b) + 1))
    case Paren(a) => Paren(AddParens(a))
  }

  function Guard(e: Expr, p: nat): Expr {
    if Strength(e) < p then Paren(e) else e
  }

  lemma {:induction false} ParensSuffice(e: Expr)
    ensures WellPrinted(AddParens(e)) && (WellPrinted(e) ==> AddParens(e) == e)
    decreases e
  {
    match e
    case Lit(_) =>
    case Var(_) =>
    case Un(_, a) => ParensSuffice(a);
    case Bin(_, l, r) =>
      ParensSuffice(l);
      ParensSuffice(r);
    case Paren(a) => ParensSuffice(a);
  }

  lemma {:induction false} ParensAreRight(e: Expr, labels: Labels)
    ensures WellPrinted(AddParens(e)) && (WellPrinted(e) ==> AddParens(e) == e)
    ensures Resolved(AddParens(e), labels) == Resolved(e, labels)
    ensures Resolved(e, labels) ==> Denote(AddParens(e), labels) == Denote(e, labels)
    decreases e
  {
    ParensSuffice(e);
    match e
    case Lit(_) =>
    case Var(_) =>
    case Un(_, a) => ParensAreRight(a, labels);
    case Bin(_, l, r) =>
      ParensAreRight(l, labels);
      ParensAreRight(r, labels);
    case Paren(a) => ParensAreRight(a, labels);
  }

  lemma {:induction false} ParensKeepNames(e: Expr, labels: Labels)
    ensures AllKnown(AddParens(e), labels) == AllKnown(e, labels) && Value(AddParens(e), labels) == Value(e, labels)
    ensures SomeNameFails(AddParens(e), labels) == SomeNameFails(e, labels)
    decreases e
  {
    match e
    case Lit(_) =>
    case Var(_) =>
    case Un(_, a) => ParensKeepNames(a, labels);
    case Bin(_, l, r) =>
      ParensKeepNames(l, labels);
      ParensKeepNames(r, labels);
    case Paren(a) => ParensKeepNames(a, labels);
  }

  lemma GuardKeeps(e: Expr, p: nat, pending: bool, loose: bool, labels: Labels)
    ensures Fate(Guard(e, p), pending, loose, labels) == Fate(e, pending, loose, labels)
    ensures AllKnown(Guard(e, p), labels) == AllKnown(e, labels) && Value(Guard(e, p), labels) == Value(e, labels)
  {
  }

  /** Parentheses change nothing about what becomes of errors. */
  lemma {:induction false} ParensKeepFate(e: Expr, pending: bool, loose: bool, labels: Labels)
    ensures Fate(AddParens(e), pending, loose, labels) == Fate(e, pending, loose, labels)
    decreases e
  {
    match e
    case Lit(_) =>
    case Var(_) =>
    case Un(u, a) => ParensKeepFate(a, pending && !(IsSign(u) && labels.lastchance), loose, labels);
    case Bin(b, l, r) =>
      var hanging, looser := Fate(l, pending, loose, labels) == Pending, loose || !AllKnown(l, labels);
      ParensKeepNames(l, labels);
      ParensKeepNames(r, labels);
      ParensKeepFate(l, pending, loose, labels);
      ParensKeepFate(r, hanging, looser, labels);
      GuardKeeps(AddParens(l), Prec(b), pending, loose, labels);
      GuardKeeps(AddParens(r), Prec(b) + 1, hanging, looser, labels);
    case Paren(a) => ParensKeepFate(a, pending, loose, labels);
  }

  /** The same for any tree, printed with the parentheses it needs. */
  lemma EvalInvertsMinimalPrint(e: Expr, tail: seq<Token>, need: bool, labels: Labels)
    requires NextPrec(tail) == 0
    ensures var (v, t) := Eval(State(Print(AddParens(e)) + tail, false, need, NoError), WHOLEEXP, labels);
      && (!Failed(t) <==> HasValue(e, labels) || Mistaken(e, labels))
      && (!Failed(t) ==> v == Value(e, labels) && t == State(tail, false, need, NoError))
      && (HasValue(e, labels) ==> v == Denote(e, labels).val)
  {
    ParensAreRight(e, labels);
    ParensKeepNames(e, labels);
    ParensKeepFate(e, false, false, labels);
    EvalInvertsPrint(AddParens(e), tail, need, labels);
  }

  // ---------------------------------------------------------------- errors on the last pass

  /** On the last pass every name of `e` is known, missing or a macro's. */
  predicate Settled(e: Expr, labels: Labels) {
    match e
    case Lit(_) => true
    case Var(n) => n in labels.table && labels.table[n].Symbol? ==> labels.table[n].known
    case Un(_, a) => Settled(a, labels)
    case Bin(_, l, r) => Settled(l, labels) && Settled(r, labels)
    case Paren(a) => Settled(a, labels)
  }

  /** On the last pass a printed tree evaluates without an error message exactly when it has a value or its
      errors are lost. */
  lemma LastPassReports(e: Expr, labels: Labels)
    requires WellPrinted(e) && Settled(e, labels) && labels.lastchance
    ensures Eval(State(Print(e), false, false, NoError), WHOLEEXP, labels).1.err == NoError
       <==> HasValue(e, labels) || Lost(e, labels)
  {
    assert Print(e) + [] == Print(e);
    EvalEnds(e, [], false, labels);
    UnresolvedFails(e, labels);
    if Resolved(e, labels) {
      ResolvedFate(e, labels);
    }
  }

  /** `x+-1` and `x++1`, with `x` missing: the sign loses the error, and the value is 0. */
  lemma SignLosesUnknownLabel(u: UnOp)
    requires u == Negate || u == Posit
    ensures var e := Bin(Plus, Var("x"), Un(u, Lit(1)));
            var (v, t) := Eval(State(Print(e), false, false, NoError), WHOLEEXP, Labels(map[], true));
            Lost(e, Labels(map[], true)) && t.err == NoError && t.dependant
  {
    var e := Bin(Plus, Var("x"), Un(u, Lit(1)));
    assert Print(e) + [] == Print(e);
    EvalEnds(e, [], false, Labels(map[], true));
  }

  /** `M+-1`, with `M` a macro: the sign loses that error too, and the last pass takes the value to be -1. */
  lemma SignLosesMacroError()
    ensures var e, labels := Bin(Plus, Var("M"), Un(Negate, Lit(1))), Labels(map["M" := MacroName(false)], true);
            Mistaken(e, labels) && Eval(State(Print(e), false, false, NoError), WHOLEEXP, labels)
                                   == (-1, State([], false, false, NoError))
  {
    var e, labels := Bin(Plus, Var("M"), Un(Negate, Lit(1))), Labels(map["M" := MacroName(false)], true);
    assert Print(e) + [] == Print(e);
    EvalInvertsPrint(e, [], false, labels);
  }

  /** Not every sign loses an error: `-x` and `x*2+-1` are reported, as no sign is evaluated after `x` while
      its error is pending. */
  lemma SignMayComeTooLate()
    ensures var labels := Labels(map[], true);
            !Lost(Un(Negate, Var("x")), labels) && !Lost(Bin(Plus, Bin(Mul, Var("x"), Lit(2)), Un(Negate, Lit(1))), labels)
  {
  }
}
