/** DASM's two-stack expression evaluator (exp.c), as functions on the part of the two stacks
    that one activation of `eval` owns, and the expression trees it has to agree with. */
module DasmExpression {
  import opened CInt

  const MAXOPS: nat := 32
  const MAXARGS: nat := 64
  const MAXRECURSION: nat := 1000

  datatype UnOp = TakeLsb | TakeMsb | Negate | Invert | Not

  datatype BinOp =
    | Mult | Div | Mod | Add | Sub | ShiftRightOp | ShiftLeftOp
    | Greater | GreaterEq | Smaller | SmallerEq | EqEq | NotEq
    | AndAnd | OrOr | BitXor | BitAnd | BitOr | Question

  /** One slot of `Argstack`/`Argflags`; the only flag that reaches it is SYM_UNKNOWN. */
  datatype Arg = Arg(val: int, unknown: bool)

  /** The ways in which evaluation stops the assembler instead of producing a value. */
  datatype Fatal = DivisionByZero | RecursionTooDeep | OpStackOverrun | StrayBracket

  datatype Value = Val(arg: Arg) | Fail(why: Fatal)

  function Priority(op: BinOp): (p: nat)
    ensures 10 <= p <= 20
  {
    match op
    case Mult => 20
    case Div => 20
    case Mod => 20
    case Add => 19
    case Sub => 19
    case ShiftRightOp => 18
    case ShiftLeftOp => 18
    case Greater => 17
    case GreaterEq => 17
    case Smaller => 17
    case SmallerEq => 17
    case EqEq => 16
    case NotEq => 16
    case BitAnd => 15
    case BitXor => 14
    case BitOr => 13
    case AndAnd => 12
    case OrOr => 11
    case Question => 10
  }

  function ApplyUn(op: UnOp, a: Arg): Arg {
    match op
    case TakeLsb => Arg(Bitwise(AND, a.val, 0xFF), a.unknown)
    case TakeMsb => Arg(Bitwise(AND, ShiftRight(a.val, 8), 0xFF), a.unknown)
    case Negate => Arg(Wrap64(-a.val), a.unknown)
    case Invert => Arg(Complement(a.val), a.unknown)
    case Not => Arg(Truth(a.val == 0), a.unknown)
  }

  /** The flag of most binary operators: either operand's flag. */
  function Both(v: int, a: Arg, b: Arg): Value {
    Val(Arg(v, a.unknown || b.unknown))
  }

  /** Division, remainder and shifts give 0 while an operand is unknown. */
  function Strict(v: int, a: Arg, b: Arg): Value {
    Val(if a.unknown || b.unknown then Arg(0, true) else Arg(v, false))
  }

  function ApplyBin(op: BinOp, a: Arg, b: Arg): Value {
    match op
    case Mult => Both(Wrap64(a.val * b.val), a, b)
    case Div =>
      if a.unknown || b.unknown then Val(Arg(0, true))
      else if b.val == 0 then Fail(DivisionByZero)
      else Val(Arg(Wrap64(Quotient(a.val, b.val)), false))
    case Mod =>
      if a.unknown || b.unknown then Val(Arg(0, true))
      else if b.val == 0 then Val(Arg(a.val, false))
      else Val(Arg(Remainder(a.val, b.val), false))
    case Add => Both(Wrap64(a.val + b.val), a, b)
    case Sub => Both(Wrap64(a.val - b.val), a, b)
    case ShiftRightOp => Strict(ShiftRight(a.val, b.val), a, b)
    case ShiftLeftOp => Strict(Wrap64(ShiftLeft(a.val, b.val)), a, b)
    case Greater => Both(Truth(a.val > b.val), a, b)
    case GreaterEq => Both(Truth(a.val >= b.val), a, b)
    case Smaller => Both(Truth(a.val < b.val), a, b)
    case SmallerEq => Both(Truth(a.val <= b.val), a, b)
    case EqEq => Both(Truth(a.val == b.val), a, b)
    case NotEq => Both(Truth(a.val != b.val), a, b)
    case AndAnd =>
      if (!a.unknown && a.val == 0) || (!b.unknown && b.val == 0) then Val(Arg(0, false)) else Both(1, a, b)
    case OrOr =>
      if (!a.unknown && a.val != 0) || (!b.unknown && b.val != 0) then Val(Arg(1, false)) else Both(0, a, b)
    case BitXor => Both(Bitwise(XOR, a.val, b.val), a, b)
    case BitAnd => Both(Bitwise(AND, a.val, b.val), a, b)
    case BitOr => Both(Bitwise(OR, a.val, b.val), a, b)
    case Question =>
      if a.unknown then Val(Arg(0, true))
      else if a.val != 0 then Val(b) else Val(Arg(0, false))
  }

  // ---------------------------------------------------------------- the machine

  /** A classified input token. */
  datatype Token = Num(val: int) | Sym(name: string) | UnTok(u: UnOp) | BinTok(b: BinOp) | Open | Close

  /** A symbol is a number with its unknown flag, or an EQM macro whose text is evaluated at each use. */
  datatype Symbol = Number(arg: Arg) | MacroText(body: seq<Token>)

  type SymbolTable = map<string, Symbol>

  /** A slot of `Opdis`/`Oppri`. */
  datatype Entry = Bracket | Unary(u: UnOp) | Binary(b: BinOp)

  function Pri(e: Entry): nat {
    match e
    case Bracket => 0
    case Unary(_) => 128
    case Binary(b) => Priority(b)
  }

  /** The stacks above one activation's base pointers; `clean` until a diagnostic is printed. */
  datatype Frame = Frame(argBase: nat, opBase: nat, args: seq<Arg>, ops: seq<Entry>, clean: bool)

  datatype Outcome = Running(f: Frame) | Abort(why: Fatal)

  function Top<T>(s: seq<T>): T
    requires s != []
  {
    s[|s| - 1]
  }

  function Pop<T>(s: seq<T>): (r: seq<T>)
    requires s != []
    ensures |r| == |s| - 1
  {
    s[..|s| - 1]
  }

  /** The overflow reset at the start of `stackarg`. */
  function PushArg(f: Frame, a: Arg): Frame {
    if f.argBase + |f.args| + 1 == MAXARGS then f.(args := [], clean := false) else f.(args := f.args + [a])
  }

  function EvalTop(f: Frame): (o: Outcome)
    ensures o.Running? ==> |o.f.ops| <= |f.ops| && (f.ops != [] ==> |o.f.ops| < |f.ops|)
    decreases |f.ops|, 0
  {
    if f.ops == [] then Running(f.(clean := false)) else Apply(f.(ops := Pop(f.ops)), Top(f.ops))
  }

  /** Replace the operands of `e`, just popped, by its result. */
  function Apply(f: Frame, e: Entry): (o: Outcome)
    ensures o.Running? ==> |o.f.ops| <= |f.ops|
    decreases |f.ops|, 5
  {
    match e
    case Bracket => Abort(StrayBracket)
    case Unary(u) =>
      if |f.args| < 1 then Running(f.(args := [], clean := false))
      else StackArg(f.(args := Pop(f.args)), ApplyUn(u, Top(f.args)))
    case Binary(b) =>
      if |f.args| < 2 then Running(f.(args := [], clean := false))
      else Settle(f.(args := f.args[..|f.args| - 2]), ApplyBin(b, f.args[|f.args| - 2], Top(f.args)))
  }

  /** Stack what an operator comes to, unless it stops the assembler. */
  function Settle(f: Frame, v: Value): (o: Outcome)
    ensures o.Running? ==> |o.f.ops| <= |f.ops|
    decreases |f.ops|, 4
  {
    match v
    case Fail(why) => Abort(why)
    case Val(a) => StackArg(f, a)
  }

  function StackArg(f: Frame, a: Arg): (o: Outcome)
    ensures o.Running? ==> |o.f.ops| <= |f.ops|
    decreases |f.ops|, 3
  {
    Norm(PushArg(f, a), 128)
  }

  /** The `while` loops that call `evaltop`: evaluate as long as the operator on top is not a
      bracket and has at least priority `p`. */
  function Norm(f: Frame, p: nat): (o: Outcome)
    ensures o.Running? ==> |o.f.ops| <= |f.ops|
    decreases |f.ops|, 2
  {
    if f.ops != [] && Pri(Top(f.ops)) != 0 && p <= Pri(Top(f.ops)) then
      match EvalTop(f)
      case Abort(why) => Abort(why)
      case Running(g) => Norm(g, p)
    else
      Running(f)
  }

  function DoOp(f: Frame, e: Entry): Outcome
    requires e != Bracket
  {
    if f.ops == [] || e.Unary? then
      if f.opBase + |f.ops| >= MAXOPS then Abort(RecursionTooDeep) else Running(f.(ops := f.ops + [e]))
    else
      match Norm(f, Pri(e))
      case Abort(why) => Abort(why)
      case Running(g) =>
        if g.opBase + |g.ops| >= MAXOPS then Abort(OpStackOverrun)
        else if g.opBase + |g.ops| + 1 == MAXOPS then Running(g.(ops := [], clean := false))
        else Running(g.(ops := g.ops + [e]))
  }

  function OpenBracket(f: Frame): Frame {
    if f.opBase + |f.ops| == MAXOPS then f.(clean := false) else f.(ops := f.ops + [Bracket])
  }

  function CloseBracket(f: Frame): Outcome {
    match Norm(f, 1)
    case Abort(why) => Abort(why)
    case Running(g) =>
      var h := if g.ops == [] then g else g.(ops := Pop(g.ops));
      Running(if h.args == [] then h.(clean := false) else h)
  }

  /** The final `while (Opi != Opibase) evaltop()`. */
  function Drain(f: Frame): (o: Outcome)
    ensures o.Running? ==> o.f.ops == []
    decreases |f.ops|
  {
    if f.ops == [] then Running(f)
    else
      match EvalTop(f)
      case Abort(why) => Abort(why)
      case Running(g) => Drain(g)
  }

  /** What `eval` hands back: the argument and whether no diagnostic was printed. */
  datatype Answer = Answer(arg: Arg, clean: bool) | Stopped(why: Fatal)

  function Finish(o: Outcome): Answer {
    match o
    case Abort(why) => Stopped(why)
    case Running(f) =>
      match Drain(f)
      case Abort(why) => Stopped(why)
      case Running(g) =>
        if g.args == [] then Answer(Arg(0, false), g.clean) else Answer(Top(g.args), g.clean && |g.args| == 1)
  }

  /** `eval`: a fresh activation on top of `argBase` arguments and `opBase` operators, inside
      `depth` activations of `pushsymbol`. */
  function Eval(toks: seq<Token>, table: SymbolTable, argBase: nat, opBase: nat, depth: nat): Answer
    requires depth <= MAXRECURSION
    decreases MAXRECURSION - depth, |toks| + 1, 1
  {
    Finish(Run(Running(Frame(argBase, opBase, [], [], true)), toks, table, depth))
  }

  function Run(o: Outcome, toks: seq<Token>, table: SymbolTable, depth: nat): Outcome
    requires depth <= MAXRECURSION
    decreases MAXRECURSION - depth, |toks| + 1, 0
  {
    if toks == [] || o.Abort? then o else Run(Step(o.f, toks[0], table, depth), toks[1..], table, depth)
  }

  function Step(f: Frame, t: Token, table: SymbolTable, depth: nat): Outcome
    requires depth <= MAXRECURSION
    decreases MAXRECURSION - depth, 1
  {
    match t
    case Num(v) => StackArg(f, Arg(v, false))
    case Sym(name) => PushSymbol(f, name, table, depth)
    case UnTok(u) => DoOp(f, Unary(u))
    case BinTok(b) => DoOp(f, Binary(b))
    case Open => Running(OpenBracket(f))
    case Close => CloseBracket(f)
  }

  function PushSymbol(f: Frame, name: string, table: SymbolTable, depth: nat): Outcome
    requires depth <= MAXRECURSION
    decreases MAXRECURSION - depth, 0
  {
    if depth + 1 > MAXRECURSION then Abort(RecursionTooDeep)
    else if name !in table then StackArg(f, Arg(0, true))
    else
      match table[name]
      case Number(a) => StackArg(f, a)
      case MacroText(body) =>
        match Eval(body, table, f.argBase + |f.args|, f.opBase + |f.ops|, depth + 1)
        case Stopped(why) => Abort(why)
        case Answer(a, clean) => StackArg(f.(clean := f.clean && clean), a)
  }

  // ---------------------------------------------------------------- expression trees

  datatype Expr =
    | Lit(val: int)
    | Name(name: string)
    | Un(u: UnOp, e: Expr)
    | Bin(b: BinOp, l: Expr, r: Expr)
    | Paren(e: Expr)

  /** What a symbol stands for: a number, or the tree its macro text spells. */
  datatype Def = Constant(arg: Arg) | Macro(e: Expr)

  type Defs = map<string, Def>

  /** The priority with which the outermost construct of `e` holds together. */
  function Strength(e: Expr): nat {
    if e.Bin? then Priority(e.b) else 128
  }

  /** The written form needs no further brackets: operators of one priority group to the left
      and a unary operator applies to the smallest operand. */
  predicate WellBracketed(e: Expr) {
    match e
    case Lit(_) => true
    case Name(_) => true
    case Un(_, a) => !a.Bin? && WellBracketed(a)
    case Bin(b, l, r) => Priority(b) <= Strength(l) && Priority(b) < Strength(r) && WellBracketed(l) && WellBracketed(r)
    case Paren(a) => WellBracketed(a)
  }

  function Tokens(e: Expr): seq<Token> {
    match e
    case Lit(v) => [Num(v)]
    case Name(n) => [Sym(n)]
    case Un(u, a) => [UnTok(u)] + Tokens(a)
    case Bin(b, l, r) => Tokens(l) + [BinTok(b)] + Tokens(r)
    case Paren(a) => [Open] + Tokens(a) + [Close]
  }

  function Denote(e: Expr, defs: Defs, depth: nat): Value
    requires depth <= MAXRECURSION
    decreases MAXRECURSION - depth, e
  {
    match e
    case Lit(v) => Val(Arg(v, false))
    case Name(n) =>
      if depth + 1 > MAXRECURSION then Fail(RecursionTooDeep)
      else if n !in defs then Val(Arg(0, true))
      else
        (match defs[n]
         case Constant(a) => Val(a)
         case Macro(m) => Denote(m, defs, depth + 1))
    case Un(u, a) =>
      (match Denote(a, defs, depth)
       case Fail(why) => Fail(why)
       case Val(v) => Val(ApplyUn(u, v)))
    case Bin(b, l, r) =>
      (match Denote(l, defs, depth)
       case Fail(why) => Fail(why)
       case Val(x) =>
         match Denote(r, defs, depth)
         case Fail(why) => Fail(why)
         case Val(y) => ApplyBin(b, x, y))
    case Paren(a) => Denote(a, defs, depth)
  }

  function Max(a: nat, b: nat): nat {
    if a > b then a else b
  }

  /** How many argument slots evaluating `e` takes. */
  function ArgNeed(e: Expr, defs: Defs, depth: nat): (n: nat)
    requires depth <= MAXRECURSION
    ensures n >= 1
    decreases MAXRECURSION - depth, e
  {
    match e
    case Lit(_) => 1
    case Name(n) => if depth < MAXRECURSION && n in defs && defs[n].Macro? then ArgNeed(defs[n].e, defs, depth + 1) else 1
    case Un(_, a) => ArgNeed(a, defs, depth)
    case Bin(_, l, r) => Max(ArgNeed(l, defs, depth), 1 + ArgNeed(r, defs, depth))
    case Paren(a) => ArgNeed(a, defs, depth)
  }

  /** How many operator slots evaluating `e` takes; a binary operator wants one to spare. */
  function OpNeed(e: Expr, defs: Defs, depth: nat): nat
    requires depth <= MAXRECURSION
    decreases MAXRECURSION - depth, e
  {
    match e
    case Lit(_) => 0
    case Name(n) => if depth < MAXRECURSION && n in defs && defs[n].Macro? then OpNeed(defs[n].e, defs, depth + 1) else 0
    case Un(_, a) => 1 + OpNeed(a, defs, depth)
    case Bin(_, l, r) => Max(OpNeed(l, defs, depth), Max(2, 1 + OpNeed(r, defs, depth)))
    case Paren(a) => 1 + OpNeed(a, defs, depth)
  }

  /** `e` can be evaluated on top of `args` arguments and `ops` operators without filling a stack. */
  predicate Fits(e: Expr, defs: Defs, depth: nat, args: nat, ops: nat)
    requires depth <= MAXRECURSION
  {
    args + ArgNeed(e, defs, depth) < MAXARGS && ops + OpNeed(e, defs, depth) <= MAXOPS
  }

  /** The symbol table that spells `defs`. */
  function Spell(defs: Defs): SymbolTable {
    map n | n in defs :: match defs[n] case Constant(a) => Number(a) case Macro(e) => MacroText(Tokens(e))
  }

  predicate AllWellBracketed(defs: Defs) {
    forall n :: n in defs && defs[n].Macro? ==> WellBracketed(defs[n].e)
  }

  // ---------------------------------------------------------------- correctness of the machine

  function Then(o: Outcome, p: nat): Outcome {
    if o.Abort? then o else Norm(o.f, p)
  }

  /** `f` with the value of `e` on top of its arguments. */
  function WithValue(f: Frame, v: Value): Outcome {
    match v
    case Fail(why) => Abort(why)
    case Val(a) => Running(f.(args := f.args + [a]))
  }

  lemma {:induction false} NormTwice(f: Frame, q: nat, p: nat)
    requires p <= q
    ensures Then(Norm(f, q), p) == Norm(f, p)
    decreases |f.ops|
  {
    if f.ops != [] && Pri(Top(f.ops)) != 0 && q <= Pri(Top(f.ops)) {
      var o := EvalTop(f);
      if o.Running? {
        NormTwice(o.f, q, p);
      }
    }
  }

  lemma {:induction false} RunAppend(o: Outcome, a: seq<Token>, b: seq<Token>, table: SymbolTable, depth: nat)
    requires depth <= MAXRECURSION
    ensures Run(o, a + b, table, depth) == Run(Run(o, a, table, depth), b, table, depth)
    decreases |a|
  {
    if a == [] {
      assert a + b == b;
    } else if o.Running? {
      assert (a + b)[0] == a[0] && (a + b)[1..] == a[1..] + b;
      RunAppend(Step(o.f, a[0], table, depth), a[1..], b, table, depth);
    }
  }

  /** `e` may follow the operators of `f`: the one on top binds less tightly than `e`'s own. */
  predicate Follows(f: Frame, e: Expr) {
    e.Bin? && f.ops != [] ==> Pri(Top(f.ops)) < Priority(e.b)
  }

  ghost predicate Ready(f: Frame, e: Expr, defs: Defs, depth: nat) {
    depth <= MAXRECURSION && WellBracketed(e) && AllWellBracketed(defs) && Follows(f, e)
    && Fits(e, defs, depth, f.argBase + |f.args|, f.opBase + |f.ops|)
  }

  /** Running over a bracketed tree and then evaluating down to any priority the tree holds
      against is the same as pushing the tree's value. */
  lemma {:induction false} RunTree(f: Frame, e: Expr, defs: Defs, depth: nat, p: nat)
    requires Ready(f, e, defs, depth)
    requires 1 <= p <= Strength(e)
    ensures Then(Run(Running(f), Tokens(e), Spell(defs), depth), p) == Then(WithValue(f, Denote(e, defs, depth)), p)
    decreases MAXRECURSION - depth, e, 1
  {
    match e
    case Lit(v) =>
      RunOne(f, Num(v), Spell(defs), depth);
      NormTwice(f.(args := f.args + [Arg(v, false)]), 128, p);
    case Name(n) => RunName(f, n, defs, depth, p);
    case Un(u, a) => RunUnary(f, u, a, defs, depth, p);
    case Bin(b, l, r) => RunBinary(f, b, l, r, defs, depth, p);
    case Paren(a) => RunParen(f, a, defs, depth);
  }

  lemma RunOne(f: Frame, t: Token, table: SymbolTable, depth: nat)
    requires depth <= MAXRECURSION
    ensures Run(Running(f), [t], table, depth) == Step(f, t, table, depth)
  {
  }

  lemma {:induction false} RunName(f: Frame, n: string, defs: Defs, depth: nat, p: nat)
    requires Ready(f, Name(n), defs, depth)
    requires 1 <= p <= 128
    ensures Then(Run(Running(f), Tokens(Name(n)), Spell(defs), depth), p)
         == Then(WithValue(f, Denote(Name(n), defs, depth)), p)
    decreases MAXRECURSION - depth, Name(n), 0
  {
    RunOne(f, Sym(n), Spell(defs), depth);
    var v := Denote(Name(n), defs, depth);
    if depth < MAXRECURSION && n in defs && defs[n].Macro? {
      EvalTree(defs[n].e, defs, f.argBase + |f.args|, f.opBase + |f.ops|, depth + 1);
    }
    if v.Val? {
      NormTwice(f.(args := f.args + [v.arg]), 128, p);
    }
  }

  lemma {:induction false} RunUnary(f: Frame, u: UnOp, a: Expr, defs: Defs, depth: nat, p: nat)
    requires Ready(f, Un(u, a), defs, depth)
    requires 1 <= p <= 128
    ensures Then(Run(Running(f), Tokens(Un(u, a)), Spell(defs), depth), p)
         == Then(WithValue(f, Denote(Un(u, a), defs, depth)), p)
    decreases MAXRECURSION - depth, Un(u, a), 0
  {
    var g := f.(ops := f.ops + [Unary(u)]);
    RunOne(f, UnTok(u), Spell(defs), depth);
    RunAppend(Running(f), [UnTok(u)], Tokens(a), Spell(defs), depth);
    RunTree(g, a, defs, depth, p);
    var v := Denote(a, defs, depth);
    if v.Val? {
      Collapse(f, Unary(u), [v.arg], Val(ApplyUn(u, v.arg)), p);
    }
  }

  /** `v` is what the operator `op` makes of the operands. */
  predicate Comes(op: Entry, operands: seq<Arg>, v: Value) {
    match op
    case Bracket => false
    case Unary(u) => |operands| == 1 && v == Val(ApplyUn(u, operands[0]))
    case Binary(b) => |operands| == 2 && v == ApplyBin(b, operands[0], operands[1])
  }

  lemma ApplySettles(f: Frame, op: Entry, operands: seq<Arg>, v: Value)
    requires Comes(op, operands, v)
    ensures Apply(f.(args := f.args + operands), op) == Settle(f, v)
  {
    var args := f.args + operands;
    assert args[..|args| - |operands|] == f.args;
    assert args[|args| - |operands|..] == operands;
  }

  /** With the operands of operator `op` on top, evaluating down to `p` first replaces them by `v`. */
  lemma Collapse(f: Frame, op: Entry, operands: seq<Arg>, v: Value, p: nat)
    requires Comes(op, operands, v) && 1 <= p <= Pri(op) && f.argBase + |f.args| + 1 < MAXARGS
    ensures Norm(f.(ops := f.ops + [op], args := f.args + operands), p) == Then(WithValue(f, v), p)
  {
    var g := f.(ops := f.ops + [op], args := f.args + operands);
    assert Pop(g.ops) == f.ops && Top(g.ops) == op;
    ApplySettles(f, op, operands, v);
    assert EvalTop(g) == Settle(f, v);
    SettleNorm(f, v, p);
  }

  lemma SettleNorm(f: Frame, v: Value, p: nat)
    requires p <= 128 && f.argBase + |f.args| + 1 < MAXARGS
    ensures Then(Settle(f, v), p) == Then(WithValue(f, v), p)
  {
    if v.Val? {
      NormTwice(f.(args := f.args + [v.arg]), 128, p);
    }
  }

  /** A binary operator first evaluates down to its own priority, whatever was pending. */
  lemma PushBinary(o: Outcome, g: Frame, b: BinOp, table: SymbolTable, depth: nat)
    requires depth <= MAXRECURSION
    requires Then(o, Priority(b)) == Running(g) && g.opBase + |g.ops| + 1 < MAXOPS
    ensures Run(o, [BinTok(b)], table, depth) == Running(g.(ops := g.ops + [Binary(b)]))
  {
  }

  lemma AbortBinary(o: Outcome, why: Fatal, b: BinOp, table: SymbolTable, depth: nat)
    requires depth <= MAXRECURSION
    requires Then(o, Priority(b)) == Abort(why)
    ensures Run(o, [BinTok(b)], table, depth) == Abort(why)
  {
  }

  lemma {:induction false} RunBinary(f: Frame, b: BinOp, l: Expr, r: Expr, defs: Defs, depth: nat, p: nat)
    requires Ready(f, Bin(b, l, r), defs, depth)
    requires 1 <= p <= Priority(b)
    ensures Then(Run(Running(f), Tokens(Bin(b, l, r)), Spell(defs), depth), p)
         == Then(WithValue(f, Denote(Bin(b, l, r), defs, depth)), p)
    decreases MAXRECURSION - depth, Bin(b, l, r), 0
  {
    var table := Spell(defs);
    var left := Run(Running(f), Tokens(l), table, depth);
    RunAppend(Running(f), Tokens(l) + [BinTok(b)], Tokens(r), table, depth);
    RunAppend(Running(f), Tokens(l), [BinTok(b)], table, depth);
    RunTree(f, l, defs, depth, Priority(b));
    var x := Denote(l, defs, depth);
    if x.Fail? {
      AbortBinary(left, x.why, b, table, depth);
    } else {
      var g := f.(args := f.args + [x.arg]);
      PushBinary(left, g, b, table, depth);
      RunRight(f, b, x.arg, r, defs, depth, p);
    }
  }

  /** The right operand, once the left one and the operator are on the stacks. */
  lemma {:induction false} RunRight(f: Frame, b: BinOp, x: Arg, r: Expr, defs: Defs, depth: nat, p: nat)
    requires depth <= MAXRECURSION && WellBracketed(r) && AllWellBracketed(defs) && Priority(b) < Strength(r)
    requires Fits(r, defs, depth, f.argBase + |f.args| + 1, f.opBase + |f.ops| + 1)
    requires 1 <= p <= Priority(b)
    ensures Then(Run(Running(WithOperator(f, x, b)), Tokens(r), Spell(defs), depth), p)
         == match Denote(r, defs, depth)
            case Fail(why) => Abort(why)
            case Val(y) => Then(WithValue(f, ApplyBin(b, x, y)), p)
    decreases MAXRECURSION - depth, r, 2
  {
    RunTree(WithOperator(f, x, b), r, defs, depth, p);
    var y := Denote(r, defs, depth);
    if y.Val? {
      CollapseBinary(f, b, x, y.arg, p);
    }
  }

  /** Both operands and the operator on the stacks. */
  lemma CollapseBinary(f: Frame, b: BinOp, x: Arg, y: Arg, p: nat)
    requires 1 <= p <= Priority(b) && f.argBase + |f.args| + 1 < MAXARGS
    ensures Then(WithValue(WithOperator(f, x, b), Val(y)), p) == Then(WithValue(f, ApplyBin(b, x, y)), p)
  {
    assert f.args + [x] + [y] == f.args + [x, y];
    Collapse(f, Binary(b), [x, y], ApplyBin(b, x, y), p);
  }

  /** `f` with a left operand and its operator pushed. */
  function WithOperator(f: Frame, x: Arg, b: BinOp): Frame {
    f.(args := f.args + [x], ops := f.ops + [Binary(b)])
  }

  lemma {:induction false} RunParen(f: Frame, a: Expr, defs: Defs, depth: nat)
    requires Ready(f, Paren(a), defs, depth)
    ensures Run(Running(f), Tokens(Paren(a)), Spell(defs), depth) == WithValue(f, Denote(a, defs, depth))
    decreases MAXRECURSION - depth, Paren(a), 0
  {
    var table := Spell(defs);
    var g := f.(ops := f.ops + [Bracket]);
    RunAppend(Running(f), [Open] + Tokens(a), [Close], table, depth);
    RunAppend(Running(f), [Open], Tokens(a), table, depth);
    RunOne(f, Open, table, depth);
    RunTree(g, a, defs, depth, 1);
    var inner := Run(Running(g), Tokens(a), table, depth);
    if inner.Running? {
      RunOne(inner.f, Close, table, depth);
      assert Pop(g.ops) == f.ops;
    }
  }

  /** Shunting-yard correctness: evaluating a bracketed tree, on top of any stacks that leave
      room, leaves exactly the tree's value, with no diagnostic, or stops for the tree's reason. */
  lemma {:induction false} EvalTree(e: Expr, defs: Defs, argBase: nat, opBase: nat, depth: nat)
    requires depth <= MAXRECURSION && WellBracketed(e) && AllWellBracketed(defs)
    requires Fits(e, defs, depth, argBase, opBase)
    ensures Eval(Tokens(e), Spell(defs), argBase, opBase, depth)
         == match Denote(e, defs, depth) case Val(a) => Answer(a, true) case Fail(why) => Stopped(why)
    decreases MAXRECURSION - depth, e, 2
  {
    var f := Frame(argBase, opBase, [], [], true);
    RunTree(f, e, defs, depth, 1);
    var o := Run(Running(f), Tokens(e), Spell(defs), depth);
    if o.Running? {
      DrainIsNorm(o.f);
    }
  }

  /** If evaluating down to priority 1 empties the operator stack, it is the final drain. */
  lemma {:induction false} DrainIsNorm(f: Frame)
    requires Norm(f, 1).Running? ==> Norm(f, 1).f.ops == []
    ensures Drain(f) == Norm(f, 1)
    decreases |f.ops|
  {
    if f.ops != [] && Top(f.ops) != Bracket && EvalTop(f).Running? {
      DrainIsNorm(EvalTop(f).f);
    }
  }

  // ---------------------------------------------------------------- writing brackets

  /** `e` with brackets added exactly where the priorities need them. */
  function AddBrackets(e: Expr): Expr {
    match e
    case Lit(_) => e
    case Name(_) => e
    case Un(u, a) => Un(u, Guard(AddBrackets(a), 128))
    case Bin(b, l, r) => Bin(b, Guard(AddBrackets(l), Priority(b)), Guard(AddBrackets(r), Priority(b) + 1))
    case Paren(a) => Paren(AddBrackets(a))
  }

  /** `e`, bracketed if it does not hold together at strength `p`. */
  function Guard(e: Expr, p: nat): Expr {
    if Strength(e) < p then Paren(e) else e
  }

  lemma {:induction false} BracketsAreRight(e: Expr, defs: Defs, depth: nat)
    requires depth <= MAXRECURSION
    ensures WellBracketed(AddBrackets(e))
    ensures Denote(AddBrackets(e), defs, depth) == Denote(e, defs, depth)
    ensures WellBracketed(e) ==> AddBrackets(e) == e
    decreases e
  {
    match e
    case Lit(_) =>
    case Name(_) =>
    case Un(_, a) => BracketsAreRight(a, defs, depth);
    case Bin(_, l, r) =>
      BracketsAreRight(l, defs, depth);
      BracketsAreRight(r, defs, depth);
    case Paren(a) => BracketsAreRight(a, defs, depth);
  }

  /** Any tree, written with the brackets it needs, evaluates to its denotation. */
  lemma EvalWritten(e: Expr, defs: Defs, argBase: nat, opBase: nat, depth: nat)
    requires depth <= MAXRECURSION && AllWellBracketed(defs)
    requires Fits(AddBrackets(e), defs, depth, argBase, opBase)
    ensures Eval(Tokens(AddBrackets(e)), Spell(defs), argBase, opBase, depth)
         == match Denote(e, defs, depth) case Val(a) => Answer(a, true) case Fail(why) => Stopped(why)
  {
    BracketsAreRight(e, defs, depth);
    EvalTree(AddBrackets(e), defs, argBase, opBase, depth);
  }

  // ---------------------------------------------------------------- the unknown flag

  /** `later` keeps every macro and every known symbol of `defs`; a symbol that is unknown or
      missing in `defs` may have become any number, known or not, or still be missing. */
  ghost predicate Resolves(defs: Defs, later: Defs) {
    forall n: string ::
      if n in defs && (defs[n].Macro? || !defs[n].arg.unknown) then n in later && later[n] == defs[n]
      else n in later ==> later[n].Constant?
  }

  /** Somewhere in `e` a known number is divided by a known zero. */
  predicate DividesByZero(e: Expr, defs: Defs, depth: nat)
    requires depth <= MAXRECURSION
    decreases MAXRECURSION - depth, e
  {
    match e
    case Lit(_) => false
    case Name(n) => depth < MAXRECURSION && n in defs && defs[n].Macro? && DividesByZero(defs[n].e, defs, depth + 1)
    case Un(_, a) => DividesByZero(a, defs, depth)
    case Bin(b, l, r) =>
      DividesByZero(l, defs, depth) || DividesByZero(r, defs, depth)
      || (b == Div && Denote(r, defs, depth) == Val(Arg(0, false))
          && Denote(l, defs, depth).Val? && !Denote(l, defs, depth).arg.unknown)
    case Paren(a) => DividesByZero(a, defs, depth)
  }

  /** One operator: if its result is known, it stays the same however its unknown operands turn out,
      unless it now divides by zero. */
  lemma KnownOperator(b: BinOp, x: Arg, y: Arg, x': Arg, y': Arg)
    requires !x.unknown ==> x' == x
    requires !y.unknown ==> y' == y
    requires ApplyBin(b, x, y).Val?
    ensures ApplyBin(b, x', y') == Fail(DivisionByZero) <==> b == Div && !x'.unknown && y' == Arg(0, false)
    ensures ApplyBin(b, x', y').Fail? ==> ApplyBin(b, x', y').why == DivisionByZero
    ensures ApplyBin(b, x', y').Val? && !ApplyBin(b, x, y).arg.unknown ==> ApplyBin(b, x', y') == ApplyBin(b, x, y)
  {
  }

  /** Evaluating again after more symbols have resolved fails exactly on a division by zero, and
      otherwise gives the same value wherever the first value was known. */
  lemma {:induction false} Reevaluate(e: Expr, defs: Defs, later: Defs, depth: nat)
    requires depth <= MAXRECURSION && Resolves(defs, later)
    requires Denote(e, defs, depth).Val?
    ensures Denote(e, later, depth).Fail? <==> DividesByZero(e, later, depth)
    ensures Denote(e, later, depth).Val? && !Denote(e, defs, depth).arg.unknown
            ==> Denote(e, later, depth) == Denote(e, defs, depth)
    decreases MAXRECURSION - depth, e
  {
    match e
    case Lit(_) =>
    case Name(n) =>
      if n in defs && defs[n].Macro? {
        assert later[n] == defs[n];
        Reevaluate(defs[n].e, defs, later, depth + 1);
      }
    case Un(_, a) => Reevaluate(a, defs, later, depth);
    case Bin(b, l, r) =>
      Reevaluate(l, defs, later, depth);
      Reevaluate(r, defs, later, depth);
      var x, y := Denote(l, later, depth), Denote(r, later, depth);
      if x.Val? && y.Val? {
        KnownOperator(b, Denote(l, defs, depth).arg, Denote(r, defs, depth).arg, x.arg, y.arg);
      }
    case Paren(a) => Reevaluate(a, defs, later, depth);
  }

  /** A value computed without the unknown flag stays valid as more symbols resolve, exactly when
      the new values make no division in the expression divide by zero. */
  lemma KnownValueStays(e: Expr, defs: Defs, later: Defs, depth: nat)
    requires depth <= MAXRECURSION && Resolves(defs, later)
    requires Denote(e, defs, depth).Val? && !Denote(e, defs, depth).arg.unknown
    ensures Denote(e, later, depth) == Denote(e, defs, depth) <==> !DividesByZero(e, later, depth)
  {
    Reevaluate(e, defs, later, depth);
  }

  /** The exception is real: `0 && 1/x` is 0 without flag while `x` is unknown, because `&&` ignores
      the flagged quotient, but both operands are always evaluated and `x = 0` stops the assembler. */
  lemma KnownValueMayStopLater()
    ensures var e := Bin(AndAnd, Lit(0), Bin(Div, Lit(1), Name("x")));
            var defs: Defs := map["x" := Constant(Arg(0, true))];
            var later: Defs := map["x" := Constant(Arg(0, false))];
            Resolves(defs, later) && Denote(e, defs, 0) == Val(Arg(0, false)) && Denote(e, later, 0) == Fail(DivisionByZero)
  {
  }
}
