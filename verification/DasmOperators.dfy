/** What DASM's evaluator returns for short texts, told in plain arithmetic: every operator on every
    pair of operands (exp.c:742-903), and which of two operators holds the middle operand (exp.c:168-319). */
module DasmOperators {
  import opened CInt
  import opened PlainArithmetic
  import opened DasmExpression

  /** Where a text without macros is evaluated: the numbers its symbols stand for, and the state of
      the stacks and of the recursion. */
  datatype Context = Context(numbers: map<string, Arg>, argBase: nat, opBase: nat, depth: nat)

  /** There is room for three operands and for two operators in a bracket. */
  predicate Roomy(c: Context) {
    c.depth < 1000 && c.argBase + 3 < 64 && c.opBase + 4 <= 32
  }

  function Numbers(c: Context): SymbolTable {
    map n | n in c.numbers :: Number(c.numbers[n])
  }

  function Ask(toks: seq<Token>, c: Context): Answer
    requires Roomy(c)
  {
    Eval(toks, Numbers(c), c.argBase, c.opBase, c.depth)
  }

  predicate Operand(t: Token) {
    t.Num? || t.Sym?
  }

  /** A symbol that is not in the table counts as an unknown 0. */
  function Reads(t: Token, c: Context): Arg
    requires Operand(t)
  {
    match t
    case Num(v) => Arg(v, false)
    case Sym(n) => if n in c.numbers then c.numbers[n] else Arg(0, true)
  }

  // ---------------------------------------------------------------- ways to state an answer

  /** A value, flagged or not, and no diagnostic. */
  predicate Clean(r: Answer, unknown: bool) {
    r.Answer? && r.clean && r.arg.unknown == unknown
  }

  predicate Is(r: Answer, v: int, unknown: bool) {
    r == Answer(Arg(v, unknown), true)
  }

  // ---------------------------------------------------------------- from trees to texts

  function Leaf(t: Token): Expr
    requires Operand(t)
  {
    match t
    case Num(v) => Lit(v)
    case Sym(n) => Name(n)
  }

  function Constants(numbers: map<string, Arg>): Defs {
    map n | n in numbers :: Constant(numbers[n])
  }

  function Result(v: Value): Answer {
    match v
    case Val(a) => Answer(a, true)
    case Fail(why) => Stopped(why)
  }

  /** `v` applied to what is already a value. */
  function ThenBin(op: BinOp, x: Value, y: Value): Value {
    if x.Fail? then x else if y.Fail? then y else ApplyBin(op, x.arg, y.arg)
  }

  lemma AskTree(e: Expr, c: Context)
    requires Roomy(c) && WellBracketed(e)
    requires ArgNeed(e, Constants(c.numbers), c.depth) <= 3 && OpNeed(e, Constants(c.numbers), c.depth) <= 4
    ensures Ask(Tokens(e), c) == Result(Denote(e, Constants(c.numbers), c.depth))
  {
    assert Spell(Constants(c.numbers)) == Numbers(c);
    EvalTree(e, Constants(c.numbers), c.argBase, c.opBase, c.depth);
  }

  /** `e` spells `toks`, comes to `v`, and takes at most two arguments and three operators. */
  predicate Part(e: Expr, toks: seq<Token>, v: Value, c: Context)
    requires c.depth < 1000
  {
    var defs := Constants(c.numbers);
    WellBracketed(e) && Tokens(e) == toks && Denote(e, defs, c.depth) == v
    && ArgNeed(e, defs, c.depth) <= 2 && OpNeed(e, defs, c.depth) <= 3
  }

  predicate Small(e: Expr, c: Context)
    requires c.depth < 1000
  {
    OpNeed(e, Constants(c.numbers), c.depth) <= 2
  }

  lemma LeafPart(t: Token, c: Context)
    requires Roomy(c) && Operand(t)
    ensures Part(Leaf(t), [t], Val(Reads(t, c)), c) && Strength(Leaf(t)) == 128
    ensures ArgNeed(Leaf(t), Constants(c.numbers), c.depth) == 1 && OpNeed(Leaf(t), Constants(c.numbers), c.depth) == 0
  {
  }

  lemma UnaryPart(op: UnOp, t: Token, c: Context)
    requires Roomy(c) && Operand(t)
    ensures Part(Un(op, Leaf(t)), [UnTok(op), t], Val(ApplyUn(op, Reads(t, c))), c) && Small(Un(op, Leaf(t)), c)
  {
    LeafPart(t, c);
    UnaryOf(op, Leaf(t), [t], Reads(t, c), c);
    assert [UnTok(op)] + [t] == [UnTok(op), t];
  }

  lemma UnaryOf(op: UnOp, e: Expr, toks: seq<Token>, x: Arg, c: Context)
    requires Roomy(c) && Part(e, toks, Val(x), c) && !e.Bin? && OpNeed(e, Constants(c.numbers), c.depth) == 0
    ensures Part(Un(op, e), [UnTok(op)] + toks, Val(ApplyUn(op, x)), c) && Small(Un(op, e), c)
  {
  }

  lemma PairPart(t: Token, op: BinOp, u: Token, c: Context)
    requires Roomy(c) && Operand(t) && Operand(u)
    ensures Part(Bin(op, Leaf(t), Leaf(u)), [t, BinTok(op), u], ApplyBin(op, Reads(t, c), Reads(u, c)), c)
    ensures Small(Bin(op, Leaf(t), Leaf(u)), c)
  {
    LeafPart(t, c);
    LeafPart(u, c);
    assert [t] + [BinTok(op)] + [u] == [t, BinTok(op), u];
  }

  lemma ParenPart(e: Expr, toks: seq<Token>, v: Value, c: Context)
    requires Roomy(c) && Part(e, toks, v, c) && Small(e, c)
    ensures Part(Paren(e), [Open] + toks + [Close], v, c) && Strength(Paren(e)) == 128
  {
  }

  lemma AskPart(e: Expr, toks: seq<Token>, v: Value, c: Context)
    requires Roomy(c) && Part(e, toks, v, c)
    ensures Ask(toks, c) == Result(v)
  {
    AskTree(e, c);
  }

  lemma AskParts(o: BinOp, l: Expr, left: seq<Token>, x: Value, r: Expr, right: seq<Token>, y: Value, c: Context)
    requires Roomy(c) && Part(l, left, x, c) && Part(r, right, y, c)
    requires Priority(o) <= Strength(l) && Priority(o) < Strength(r)
    ensures Ask(left + [BinTok(o)] + right, c) == Result(ThenBin(o, x, y))
  {
    AskTree(Bin(o, l, r), c);
  }

  lemma AskTwo(t: Token, op: BinOp, u: Token, c: Context)
    requires Roomy(c) && Operand(t) && Operand(u)
    ensures Ask([t, BinTok(op), u], c) == Result(ApplyBin(op, Reads(t, c), Reads(u, c)))
  {
    PairPart(t, op, u, c);
    AskPart(Bin(op, Leaf(t), Leaf(u)), [t, BinTok(op), u], ApplyBin(op, Reads(t, c), Reads(u, c)), c);
  }

  lemma AskUnary(op: UnOp, t: Token, c: Context)
    requires Roomy(c) && Operand(t)
    ensures Ask([UnTok(op), t], c) == Answer(ApplyUn(op, Reads(t, c)), true)
  {
    UnaryPart(op, t, c);
    AskPart(Un(op, Leaf(t)), [UnTok(op), t], Val(ApplyUn(op, Reads(t, c))), c);
  }

  lemma AskRight(t: Token, o: BinOp, u: Token, m: BinOp, v: Token, c: Context)
    requires Roomy(c) && Operand(t) && Operand(u) && Operand(v)
    ensures var r := Result(ThenBin(o, Val(Reads(t, c)), ApplyBin(m, Reads(u, c), Reads(v, c))));
            Ask([t, BinTok(o), Open, u, BinTok(m), v, Close], c) == r
            && (Priority(o) < Priority(m) ==> Ask([t, BinTok(o), u, BinTok(m), v], c) == r)
  {
    var x, y := Val(Reads(t, c)), ApplyBin(m, Reads(u, c), Reads(v, c));
    var inner := Bin(m, Leaf(u), Leaf(v));
    LeafPart(t, c);
    PairPart(u, m, v, c);
    ParenPart(inner, [u, BinTok(m), v], y, c);
    Flatten(t, BinTok(o), Open, u, BinTok(m), v, Close);
    AskParts(o, Leaf(t), [t], x, Paren(inner), [Open] + [u, BinTok(m), v] + [Close], y, c);
    if Priority(o) < Priority(m) {
      AskParts(o, Leaf(t), [t], x, inner, [u, BinTok(m), v], y, c);
    }
  }

  lemma AskLeft(t: Token, o: BinOp, u: Token, m: BinOp, v: Token, c: Context)
    requires Roomy(c) && Operand(t) && Operand(u) && Operand(v)
    ensures var r := Result(ThenBin(m, ApplyBin(o, Reads(t, c), Reads(u, c)), Val(Reads(v, c))));
            Ask([Open, t, BinTok(o), u, Close, BinTok(m), v], c) == r
            && (Priority(m) <= Priority(o) ==> Ask([t, BinTok(o), u, BinTok(m), v], c) == r)
  {
    var x, y := ApplyBin(o, Reads(t, c), Reads(u, c)), Val(Reads(v, c));
    var inner := Bin(o, Leaf(t), Leaf(u));
    PairPart(t, o, u, c);
    LeafPart(v, c);
    ParenPart(inner, [t, BinTok(o), u], x, c);
    Flatten(Open, t, BinTok(o), u, Close, BinTok(m), v);
    AskParts(m, Paren(inner), [Open] + [t, BinTok(o), u] + [Close], x, Leaf(v), [v], y, c);
    if Priority(m) <= Priority(o) {
      AskParts(m, inner, [t, BinTok(o), u], x, Leaf(v), [v], y, c);
    }
  }

  /** The ways in which texts are put together above. */
  lemma Flatten<T>(a: T, b: T, c: T, d: T, e: T, f: T, g: T)
    ensures [a] + [b] + ([c] + [d, e, f] + [g]) == [a, b, c, d, e, f, g]
    ensures [a] + [b, c, d] + [e] + [f] + [g] == [a, b, c, d, e, f, g]
    ensures [a] + [b] + [d, e, f] == [a, b, d, e, f] && [b, c, d] + [f] + [g] == [b, c, d, f, g]
    ensures [a, b] + [c] + [d] == [a, b, c, d] && [a] + [b] + [c, d] == [a, b, c, d]
    ensures [a] + [b, c] + [d] + [e] + [f] == [a, b, c, d, e, f]
    ensures [a] + [b] + ([c] + [d, e] + [f]) == [a, b, c, d, e, f]
  {
  }

  // ---------------------------------------------------------------- every operator

  lemma Arithmetic(t: Token, u: Token, c: Context)
    requires Roomy(c) && Operand(t) && Operand(u)
    ensures var x, y := Reads(t, c), Reads(u, c);
            Is(Ask([t, BinTok(Mult), u], c), Wrap64(x.val * y.val), x.unknown || y.unknown)
            && Is(Ask([t, BinTok(Add), u], c), Wrap64(x.val + y.val), x.unknown || y.unknown)
            && Is(Ask([t, BinTok(Sub), u], c), Wrap64(x.val - y.val), x.unknown || y.unknown)
  {
    var x, y := Reads(t, c), Reads(u, c);
    AskTwo(t, Mult, u, c);
    AskTwo(t, Add, u, c);
    AskTwo(t, Sub, u, c);
  }

  /** Both truncate toward zero. A known zero divisor stops `/` and is ignored by `%`; with an
      unknown operand the divisor is not even looked at. */
  lemma Divisions(t: Token, u: Token, c: Context)
    requires Roomy(c) && Operand(t) && Operand(u)
    ensures var x, y := Reads(t, c), Reads(u, c);
            var quotient, rest := Ask([t, BinTok(Div), u], c), Ask([t, BinTok(Mod), u], c);
            if x.unknown || y.unknown then Is(quotient, 0, true) && Is(rest, 0, true)
            else if y.val == 0 then quotient == Stopped(DivisionByZero) && Is(rest, x.val, false)
            else Is(quotient, Wrap64(Truncated(x.val, y.val)), false) && Is(rest, Rest(x.val, y.val), false)
  {
    var x, y := Reads(t, c), Reads(u, c);
    AskTwo(t, Div, u, c);
    AskTwo(t, Mod, u, c);
    if y.val != 0 {
      DivisionTruncates(x.val, y.val);
    }
  }

  /** `PowerBits` says what `Pow2` is. */
  lemma ShiftsRight(t: Token, u: Token, c: Context)
    requires Roomy(c) && Operand(t) && Operand(u)
    ensures var x, y := Reads(t, c), Reads(u, c);
            var right := Ask([t, BinTok(ShiftRightOp), u], c);
            if x.unknown || y.unknown then Is(right, 0, true)
            else Is(right, if y.val < 0 then 0 else x.val / Pow2(y.val), false)
  {
    AskTwo(t, ShiftRightOp, u, c);
  }

  lemma ShiftsLeft(t: Token, u: Token, c: Context)
    requires Roomy(c) && Operand(t) && Operand(u)
    ensures var x, y := Reads(t, c), Reads(u, c);
            var left := Ask([t, BinTok(ShiftLeftOp), u], c);
            if x.unknown || y.unknown then Is(left, 0, true)
            else Is(left, if y.val < 0 then 0 else Wrap64(x.val * Pow2(y.val)), false)
  {
    AskTwo(t, ShiftLeftOp, u, c);
  }

  lemma Comparisons(t: Token, u: Token, c: Context)
    requires Roomy(c) && Operand(t) && Operand(u)
    ensures var x, y := Reads(t, c), Reads(u, c);
            var unknown := x.unknown || y.unknown;
            Is(Ask([t, BinTok(Greater), u], c), OneIf(x.val > y.val), unknown)
            && Is(Ask([t, BinTok(GreaterEq), u], c), OneIf(x.val >= y.val), unknown)
            && Is(Ask([t, BinTok(Smaller), u], c), OneIf(x.val < y.val), unknown)
            && Is(Ask([t, BinTok(SmallerEq), u], c), OneIf(x.val <= y.val), unknown)
  {
    AskTwo(t, Greater, u, c);
    AskTwo(t, GreaterEq, u, c);
    AskTwo(t, Smaller, u, c);
    AskTwo(t, SmallerEq, u, c);
  }

  lemma Equalities(t: Token, u: Token, c: Context)
    requires Roomy(c) && Operand(t) && Operand(u)
    ensures var x, y := Reads(t, c), Reads(u, c);
            var unknown := x.unknown || y.unknown;
            Is(Ask([t, BinTok(EqEq), u], c), OneIf(x.val == y.val), unknown)
            && Is(Ask([t, BinTok(NotEq), u], c), OneIf(x.val != y.val), unknown)
  {
    AskTwo(t, EqEq, u, c);
    AskTwo(t, NotEq, u, c);
  }

  lemma BitOperators(t: Token, u: Token, c: Context, k: nat)
    requires Roomy(c) && Operand(t) && Operand(u)
    ensures var x, y := Reads(t, c), Reads(u, c);
            var conj, disj, diff := Ask([t, BinTok(BitAnd), u], c), Ask([t, BinTok(BitOr), u], c), Ask([t, BinTok(BitXor), u], c);
            Clean(conj, x.unknown || y.unknown) && Clean(disj, x.unknown || y.unknown) && Clean(diff, x.unknown || y.unknown)
            && (Bit(conj.arg.val, k) <==> Bit(x.val, k) && Bit(y.val, k))
            && (Bit(disj.arg.val, k) <==> Bit(x.val, k) || Bit(y.val, k))
            && (Bit(diff.arg.val, k) <==> Bit(x.val, k) != Bit(y.val, k))
  {
    var x, y := Reads(t, c), Reads(u, c);
    AskTwo(t, BitAnd, u, c);
    AskTwo(t, BitOr, u, c);
    AskTwo(t, BitXor, u, c);
    BitwiseBits(AND, x.val, y.val, k);
    BitwiseBits(OR, x.val, y.val, k);
    BitwiseBits(XOR, x.val, y.val, k);
  }

  /** A known false operand decides `&&` and a known true one `||`, whatever the other is; `?` gives
      its right operand, flag included, exactly if the left one is known and not 0. */
  lemma Connectives(t: Token, u: Token, c: Context)
    requires Roomy(c) && Operand(t) && Operand(u)
    ensures var x, y := Reads(t, c), Reads(u, c);
            var conj, disj, cond := Ask([t, BinTok(AndAnd), u], c), Ask([t, BinTok(OrOr), u], c), Ask([t, BinTok(Question), u], c);
            (if x == Arg(0, false) || y == Arg(0, false) then Is(conj, 0, false)
             else Is(conj, 1, x.unknown || y.unknown))
            && (if (x.val != 0 && !x.unknown) || (y.val != 0 && !y.unknown) then Is(disj, 1, false)
                else Is(disj, 0, x.unknown || y.unknown))
            && (if x.unknown then Is(cond, 0, true)
                else if x.val == 0 then Is(cond, 0, false)
                else Is(cond, y.val, y.unknown))
  {
    AskTwo(t, AndAnd, u, c);
    AskTwo(t, OrOr, u, c);
    AskTwo(t, Question, u, c);
  }

  /** Unary operators keep the flag of the operand. */
  lemma ByteOperators(t: Token, c: Context)
    requires Roomy(c) && Operand(t)
    ensures var x := Reads(t, c);
            Is(Ask([UnTok(TakeLsb), t], c), x.val % 256, x.unknown)
            && Is(Ask([UnTok(TakeMsb), t], c), x.val / 256 % 256, x.unknown)
  {
    var x := Reads(t, c);
    AskUnary(TakeLsb, t, c);
    AskUnary(TakeMsb, t, c);
    LowByteIsModulus(x.val);
    LowByteIsModulus(x.val / 256);
    Shift8(x.val);
  }

  lemma Negation(t: Token, c: Context)
    requires Roomy(c) && Operand(t)
    ensures Is(Ask([UnTok(Negate), t], c), Wrap64(-Reads(t, c).val), Reads(t, c).unknown)
  {
    AskUnary(Negate, t, c);
  }

  lemma Complements(t: Token, c: Context)
    requires Roomy(c) && Operand(t)
    ensures Is(Ask([UnTok(Invert), t], c), -1 - Reads(t, c).val, Reads(t, c).unknown)
    ensures Is(Ask([UnTok(Not), t], c), OneIf(Reads(t, c).val == 0), Reads(t, c).unknown)
  {
    AskUnary(Invert, t, c);
    AskUnary(Not, t, c);
  }

  // ---------------------------------------------------------------- which operator comes first

  /** The levels, the tightest first; operators of one level group to the left. */
  const LEVELS: seq<set<BinOp>> := [
    {Mult, Div, Mod},
    {Add, Sub},
    {ShiftRightOp, ShiftLeftOp},
    {Greater, GreaterEq, Smaller, SmallerEq},
    {EqEq, NotEq},
    {BitAnd},
    {BitXor},
    {BitOr},
    {AndAnd},
    {OrOr},
    {Question}
  ]

  lemma LevelOf(op: BinOp, i: nat)
    requires i < 11 && op in LEVELS[i]
    ensures Priority(op) == 20 - i
  {
    assert op in LEVELS[i];
  }

  /** Every operator has a level. */
  lemma LevelsCover(op: BinOp)
    ensures exists i :: 0 <= i < 11 && op in LEVELS[i]
  {
    assert op in LEVELS[20 - Priority(op)];
  }

  /** Without brackets, the tighter of two operators takes the operand between them, and the left one
      if they are of one level. */
  lemma Grouping(t: Token, o: BinOp, u: Token, m: BinOp, v: Token, i: nat, j: nat, c: Context)
    requires Roomy(c) && Operand(t) && Operand(u) && Operand(v)
    requires i < 11 && j < 11 && o in LEVELS[i] && m in LEVELS[j]
    ensures Ask([t, BinTok(o), u, BinTok(m), v], c)
         == if j < i then Ask([t, BinTok(o), Open, u, BinTok(m), v, Close], c)
            else Ask([Open, t, BinTok(o), u, Close, BinTok(m), v], c)
  {
    LevelOf(o, i);
    LevelOf(m, j);
    AskRight(t, o, u, m, v, c);
    AskLeft(t, o, u, m, v, c);
  }

  /** A unary operator takes the operand behind it before any binary one does. */
  lemma UnaryFirst(op: UnOp, t: Token, o: BinOp, u: Token, c: Context)
    requires Roomy(c) && Operand(t) && Operand(u)
    ensures Ask([UnTok(op), t, BinTok(o), u], c) == Ask([Open, UnTok(op), t, Close, BinTok(o), u], c)
    ensures Ask([t, BinTok(o), UnTok(op), u], c) == Ask([t, BinTok(o), Open, UnTok(op), u, Close], c)
  {
    UnaryFirstLeft(op, t, o, u, c);
    UnaryFirstRight(op, t, o, u, c);
  }

  lemma UnaryFirstLeft(op: UnOp, t: Token, o: BinOp, u: Token, c: Context)
    requires Roomy(c) && Operand(t) && Operand(u)
    ensures Ask([UnTok(op), t, BinTok(o), u], c) == Ask([Open, UnTok(op), t, Close, BinTok(o), u], c)
  {
    var e, x, y := Un(op, Leaf(t)), Val(ApplyUn(op, Reads(t, c))), Val(Reads(u, c));
    UnaryPart(op, t, c);
    LeafPart(u, c);
    ParenPart(e, [UnTok(op), t], x, c);
    Flatten(UnTok(op), t, BinTok(o), u, u, u, u);
    Flatten(Open, UnTok(op), t, Close, BinTok(o), u, u);
    AskParts(o, e, [UnTok(op), t], x, Leaf(u), [u], y, c);
    AskParts(o, Paren(e), [Open] + [UnTok(op), t] + [Close], x, Leaf(u), [u], y, c);
  }

  lemma UnaryFirstRight(op: UnOp, t: Token, o: BinOp, u: Token, c: Context)
    requires Roomy(c) && Operand(t) && Operand(u)
    ensures Ask([t, BinTok(o), UnTok(op), u], c) == Ask([t, BinTok(o), Open, UnTok(op), u, Close], c)
  {
    var e, x, y := Un(op, Leaf(u)), Val(Reads(t, c)), Val(ApplyUn(op, Reads(u, c)));
    LeafPart(t, c);
    UnaryPart(op, u, c);
    ParenPart(e, [UnTok(op), u], y, c);
    Flatten(t, BinTok(o), UnTok(op), u, u, u, u);
    Flatten(t, BinTok(o), Open, UnTok(op), u, Close, u);
    AskParts(o, Leaf(t), [t], x, e, [UnTok(op), u], y, c);
    AskParts(o, Leaf(t), [t], x, Paren(e), [Open] + [UnTok(op), u] + [Close], y, c);
  }

  // ---------------------------------------------------------------- neighbouring levels in plain arithmetic

  function Text(a: int, o: BinOp, b: int, m: BinOp, d: int): seq<Token> {
    [Num(a), BinTok(o), Num(b), BinTok(m), Num(d)]
  }

  /** What `a o b m d` comes to, from the two operators. */
  lemma AskText(a: int, o: BinOp, b: int, m: BinOp, d: int, c: Context)
    requires Roomy(c)
    ensures Ask(Text(a, o, b, m, d), c)
         == Result(if Priority(o) < Priority(m)
                   then ThenBin(o, Val(Arg(a, false)), ApplyBin(m, Arg(b, false), Arg(d, false)))
                   else ThenBin(m, ApplyBin(o, Arg(a, false), Arg(b, false)), Val(Arg(d, false))))
  {
    AskRight(Num(a), o, Num(b), m, Num(d), c);
    AskLeft(Num(a), o, Num(b), m, Num(d), c);
  }

  lemma ProductInSum(a: int, b: int, d: int, c: Context)
    requires Roomy(c)
    ensures Is(Ask(Text(a, Add, b, Mult, d), c), Wrap64(a + b * d), false)
  {
    AskText(a, Add, b, Mult, d, c);
    AddTo(Mult, b, d, b * d, a);
  }

  lemma ProductThenSum(a: int, b: int, d: int, c: Context)
    requires Roomy(c)
    ensures Is(Ask(Text(a, Mult, b, Add, d), c), Wrap64(a * b + d), false)
  {
    AskText(a, Mult, b, Add, d, c);
    AddTo(Mult, a, b, a * b, d);
  }

  /** Adding to a result that is wrapped already, on either side. */
  lemma AddTo(op: BinOp, a: int, b: int, x: int, d: int)
    requires ApplyBin(op, Arg(a, false), Arg(b, false)) == Val(Arg(Wrap64(x), false))
    ensures ThenBin(Add, ApplyBin(op, Arg(a, false), Arg(b, false)), Val(Arg(d, false))) == Val(Arg(Wrap64(x + d), false))
    ensures ThenBin(Add, Val(Arg(d, false)), ApplyBin(op, Arg(a, false), Arg(b, false))) == Val(Arg(Wrap64(d + x), false))
  {
    WrapSum(x, d);
  }

  lemma DifferencesToTheLeft(a: int, b: int, d: int, c: Context)
    requires Roomy(c)
    ensures Is(Ask(Text(a, Sub, b, Sub, d), c), Wrap64(a - b - d), false)
  {
    AskText(a, Sub, b, Sub, d, c);
    WrapSum(a - b, -d);
  }

  lemma SumInShift(a: int, b: int, d: int, c: Context)
    requires Roomy(c) && 0 <= b + d < 0x8000_0000_0000_0000
    ensures Is(Ask(Text(a, ShiftLeftOp, b, Add, d), c), Wrap64(a * Pow2(b + d)), false)
  {
    AskText(a, ShiftLeftOp, b, Add, d, c);
  }

  lemma SumThenShift(a: int, b: int, d: int, c: Context)
    requires Roomy(c) && d >= 0
    ensures Is(Ask(Text(a, Add, b, ShiftLeftOp, d), c), Wrap64((a + b) * Pow2(d)), false)
  {
    AskText(a, Add, b, ShiftLeftOp, d, c);
    WrapProduct(a + b, Pow2(d), (a + b) * Pow2(d));
  }

  lemma ShiftsInComparisons(a: int, b: int, d: int, c: Context)
    requires Roomy(c)
    ensures d >= 0 ==> Is(Ask(Text(a, Greater, b, ShiftRightOp, d), c), OneIf(a > b / Pow2(d)), false)
    ensures b >= 0 ==> Is(Ask(Text(a, ShiftRightOp, b, Greater, d), c), OneIf(a / Pow2(b) > d), false)
  {
    AskText(a, Greater, b, ShiftRightOp, d, c);
    AskText(a, ShiftRightOp, b, Greater, d, c);
  }

  lemma ComparisonsInEqualities(a: int, b: int, d: int, c: Context)
    requires Roomy(c)
    ensures Is(Ask(Text(a, EqEq, b, Greater, d), c), OneIf(a == OneIf(b > d)), false)
    ensures Is(Ask(Text(a, Greater, b, EqEq, d), c), OneIf(OneIf(a > b) == d), false)
  {
    AskText(a, EqEq, b, Greater, d, c);
    AskText(a, Greater, b, EqEq, d, c);
  }

  lemma EqualitiesInConjunctions(a: int, b: int, d: int, c: Context)
    requires Roomy(c)
    ensures Is(Ask(Text(a, BitAnd, b, EqEq, d), c), if b == d then a % 2 else 0, false)
    ensures Is(Ask(Text(a, EqEq, b, BitAnd, d), c), if a == b then d % 2 else 0, false)
  {
    AskText(a, BitAnd, b, EqEq, d, c);
    AskText(a, EqEq, b, BitAnd, d, c);
    AndOne(a);
    AndZero(a);
    AndOne(d);
    AndZero(d);
  }

  lemma BitConjunctionsFirst(a: int, b: int, d: int, k: nat, c: Context)
    requires Roomy(c)
    ensures var r := Ask(Text(a, BitXor, b, BitAnd, d), c);
            Clean(r, false) && (Bit(r.arg.val, k) <==> Bit(a, k) != (Bit(b, k) && Bit(d, k)))
    ensures var r := Ask(Text(a, BitAnd, b, BitXor, d), c);
            Clean(r, false) && (Bit(r.arg.val, k) <==> (Bit(a, k) && Bit(b, k)) != Bit(d, k))
  {
    AskText(a, BitXor, b, BitAnd, d, c);
    AskText(a, BitAnd, b, BitXor, d, c);
    BitwiseBits(XOR, a, Bitwise(AND, b, d), k);
    BitwiseBits(AND, b, d, k);
    BitwiseBits(XOR, Bitwise(AND, a, b), d, k);
    BitwiseBits(AND, a, b, k);
  }

  lemma BitDifferencesFirst(a: int, b: int, d: int, k: nat, c: Context)
    requires Roomy(c)
    ensures var r := Ask(Text(a, BitOr, b, BitXor, d), c);
            Clean(r, false) && (Bit(r.arg.val, k) <==> Bit(a, k) || Bit(b, k) != Bit(d, k))
    ensures var r := Ask(Text(a, BitXor, b, BitOr, d), c);
            Clean(r, false) && (Bit(r.arg.val, k) <==> Bit(a, k) != Bit(b, k) || Bit(d, k))
  {
    AskText(a, BitOr, b, BitXor, d, c);
    AskText(a, BitXor, b, BitOr, d, c);
    BitwiseBits(OR, a, Bitwise(XOR, b, d), k);
    BitwiseBits(XOR, b, d, k);
    BitwiseBits(OR, Bitwise(XOR, a, b), d, k);
    BitwiseBits(XOR, a, b, k);
  }

  lemma BitsInConnectives(a: int, b: int, d: int, c: Context)
    requires Roomy(c)
    ensures Is(Ask(Text(a, AndAnd, b, BitOr, d), c), OneIf(a != 0 && (b != 0 || d != 0)), false)
    ensures Is(Ask(Text(a, BitOr, b, AndAnd, d), c), OneIf((a != 0 || b != 0) && d != 0), false)
  {
    AskText(a, AndAnd, b, BitOr, d, c);
    AskText(a, BitOr, b, AndAnd, d, c);
    OrInConjunction(Arg(a, false), Arg(b, false), Arg(d, false));
  }

  lemma OrInConjunction(x: Arg, y: Arg, z: Arg)
    requires !x.unknown && !y.unknown && !z.unknown
    ensures ThenBin(AndAnd, Val(x), ApplyBin(BitOr, y, z))
         == Val(Arg(OneIf(x.val != 0 && (y.val != 0 || z.val != 0)), false))
    ensures ThenBin(AndAnd, ApplyBin(BitOr, x, y), Val(z))
         == Val(Arg(OneIf((x.val != 0 || y.val != 0) && z.val != 0), false))
  {
    OrIsZero(y.val, z.val);
    OrIsZero(x.val, y.val);
  }

  lemma ConjunctionsFirst(a: int, b: int, d: int, c: Context)
    requires Roomy(c)
    ensures Is(Ask(Text(a, OrOr, b, AndAnd, d), c), OneIf(a != 0 || (b != 0 && d != 0)), false)
    ensures Is(Ask(Text(a, AndAnd, b, OrOr, d), c), OneIf((a != 0 && b != 0) || d != 0), false)
  {
    AskText(a, OrOr, b, AndAnd, d, c);
    AskText(a, AndAnd, b, OrOr, d, c);
  }

  lemma ConditionLast(a: int, b: int, d: int, c: Context)
    requires Roomy(c)
    ensures Is(Ask(Text(a, Question, b, OrOr, d), c), if a == 0 then 0 else OneIf(b != 0 || d != 0), false)
    ensures Is(Ask(Text(a, OrOr, b, Question, d), c), if a == 0 && b == 0 then 0 else d, false)
  {
    AskText(a, Question, b, OrOr, d, c);
    AskText(a, OrOr, b, Question, d, c);
  }

  // ---------------------------------------------------------------- malformed texts

  function Start(c: Context): Frame {
    Frame(c.argBase, c.opBase, [], [], true)
  }

  lemma AskTwoSteps(a: Token, b: Token, c: Context)
    requires Roomy(c) && Step(Start(c), a, Numbers(c), c.depth).Running?
    ensures Ask([a, b], c) == Finish(Step(Step(Start(c), a, Numbers(c), c.depth).f, b, Numbers(c), c.depth))
  {
    assert [a, b] == [a] + [b];
    RunOne(Start(c), a, Numbers(c), c.depth);
    RunAppend(Running(Start(c)), [a], [b], Numbers(c), c.depth);
    RunOne(Step(Start(c), a, Numbers(c), c.depth).f, b, Numbers(c), c.depth);
  }

  lemma StepOperand(f: Frame, t: Token, c: Context)
    requires Roomy(c) && Operand(t) && f.argBase == c.argBase && |f.args| <= 1
    requires f.ops != [] ==> !Top(f.ops).Unary?
    ensures Step(f, t, Numbers(c), c.depth) == Running(f.(args := f.args + [Reads(t, c)]))
  {
    var g := f.(args := f.args + [Reads(t, c)]);
    assert PushArg(f, Reads(t, c)) == g;
    assert Norm(g, 128) == Running(g);
    if t.Sym? && t.name in c.numbers {
      assert Numbers(c)[t.name] == Number(Reads(t, c));
    }
  }

  lemma StepFirstOperator(f: Frame, e: Entry, t: Token, c: Context)
    requires Roomy(c) && f.ops == [] && f.opBase == c.opBase
    requires (e.Unary? && t == UnTok(e.u)) || (e.Binary? && t == BinTok(e.b))
    ensures Step(f, t, Numbers(c), c.depth) == Running(f.(ops := [e]))
  {
  }

  lemma FinishNoOperator(f: Frame)
    requires f.ops == []
    ensures Finish(Running(f)) == if f.args == [] then Answer(Arg(0, false), f.clean) else Answer(Top(f.args), f.clean && |f.args| == 1)
  {
  }

  lemma FinishMissing(f: Frame, e: Entry)
    requires f.ops == [e] && ((e.Binary? && |f.args| == 1) || (e.Unary? && f.args == []))
    ensures Finish(Running(f)) == Answer(Arg(0, false), false)
  {
    var g := f.(ops := [], args := [], clean := false);
    assert Pop(f.ops) == [] && Top(f.ops) == e;
    assert EvalTop(f) == Running(g);
    assert Drain(f) == Drain(g);
  }

  /** A unary operator without its operand empties the argument stack and is told. */
  lemma MissingOperand(op: UnOp, c: Context)
    requires Roomy(c)
    ensures Ask([UnTok(op)], c) == Answer(Arg(0, false), false)
  {
    RunOne(Start(c), UnTok(op), Numbers(c), c.depth);
    StepFirstOperator(Start(c), Unary(op), UnTok(op), c);
    FinishMissing(Start(c).(ops := [Unary(op)]), Unary(op));
  }

  /** So does a binary one without its right or left operand. */
  lemma MissingRight(t: Token, o: BinOp, c: Context)
    requires Roomy(c) && Operand(t)
    ensures Ask([t, BinTok(o)], c) == Answer(Arg(0, false), false)
  {
    var f := Start(c).(args := [Reads(t, c)]);
    StepOperand(Start(c), t, c);
    assert Start(c).args + [Reads(t, c)] == [Reads(t, c)];
    AskTwoSteps(t, BinTok(o), c);
    StepFirstOperator(f, Binary(o), BinTok(o), c);
    FinishMissing(f.(ops := [Binary(o)]), Binary(o));
  }

  lemma MissingLeft(t: Token, o: BinOp, c: Context)
    requires Roomy(c) && Operand(t)
    ensures Ask([BinTok(o), t], c) == Answer(Arg(0, false), false)
  {
    var g := Start(c).(ops := [Binary(o)]);
    StepFirstOperator(Start(c), Binary(o), BinTok(o), c);
    StepOperand(g, t, c);
    AskTwoSteps(BinTok(o), t, c);
    assert g.args + [Reads(t, c)] == [Reads(t, c)];
    FinishMissing(g.(args := [Reads(t, c)]), Binary(o));
  }

  /** Of two operands in a row the second is the answer, and it is told. */
  lemma MissingOperator(t: Token, u: Token, c: Context)
    requires Roomy(c) && Operand(t) && Operand(u)
    ensures Ask([t, u], c) == Answer(Reads(u, c), false)
  {
    var f := Start(c).(args := [Reads(t, c)]);
    StepOperand(Start(c), t, c);
    assert Start(c).args + [Reads(t, c)] == [Reads(t, c)];
    AskTwoSteps(t, u, c);
    StepOperand(f, u, c);
    FinishNoOperator(f.(args := [Reads(t, c)] + [Reads(u, c)]));
  }

  /** A bracket that is never closed stops the assembler. */
  lemma BracketNotClosed(t: Token, c: Context)
    requires Roomy(c) && Operand(t)
    ensures Ask([Open, t], c) == Stopped(StrayBracket)
  {
    var g := Start(c).(ops := [Bracket]);
    assert Step(Start(c), Open, Numbers(c), c.depth) == Running(g);
    AskTwoSteps(Open, t, c);
    StepOperand(g, t, c);
    FinishBracket(g.(args := g.args + [Reads(t, c)]));
  }

  /** One that was never opened is told only if nothing stands before it. */
  lemma BracketNotOpened(t: Token, c: Context)
    requires Roomy(c) && Operand(t)
    ensures Ask([t, Close], c) == Answer(Reads(t, c), true)
    ensures Ask([Close, t], c) == Answer(Reads(t, c), false)
  {
    var f, g := Start(c).(args := [Reads(t, c)]), Start(c).(clean := false);
    assert Start(c).args + [Reads(t, c)] == [Reads(t, c)] && g.args + [Reads(t, c)] == [Reads(t, c)];
    StepOperand(Start(c), t, c);
    AskTwoSteps(t, Close, c);
    assert Step(f, Close, Numbers(c), c.depth) == Running(f);
    FinishNoOperator(f);
    assert Step(Start(c), Close, Numbers(c), c.depth) == Running(g);
    AskTwoSteps(Close, t, c);
    StepOperand(g, t, c);
    FinishNoOperator(f.(clean := false));
  }

  lemma FinishBracket(f: Frame)
    requires f.ops == [Bracket]
    ensures Finish(Running(f)) == Stopped(StrayBracket)
  {
    assert EvalTop(f) == Abort(StrayBracket);
  }

  // ---------------------------------------------------------------- full stacks

  /** An argument in the last of the 64 slots makes this activation lose its arguments, which is told; with
      one slot more there is room. */
  lemma FullArgumentStack(v: int, table: SymbolTable, opBase: nat, depth: nat)
    requires depth <= MAXRECURSION
    ensures Eval([Num(v)], table, 63, opBase, depth) == Answer(Arg(0, false), false)
    ensures Eval([Num(v)], table, 62, opBase, depth) == Answer(Arg(v, false), true)
  {
    OnlyNumber(v, table, 63, opBase, depth);
    OnlyNumber(v, table, 62, opBase, depth);
    assert [] + [Arg(v, false)] == [Arg(v, false)];
    FinishNoOperator(Frame(63, opBase, [], [], false));
    FinishNoOperator(Frame(62, opBase, [Arg(v, false)], [], true));
  }

  lemma OnlyNumber(v: int, table: SymbolTable, argBase: nat, opBase: nat, depth: nat)
    requires depth <= MAXRECURSION
    ensures Eval([Num(v)], table, argBase, opBase, depth)
         == Finish(Running(PushArg(Frame(argBase, opBase, [], [], true), Arg(v, false))))
  {
    var f := Frame(argBase, opBase, [], [], true);
    RunOne(f, Num(v), table, depth);
    assert Norm(PushArg(f, Arg(v, false)), 128) == Running(PushArg(f, Arg(v, false)));
    assert Step(f, Num(v), table, depth) == Running(PushArg(f, Arg(v, false)));
  }

  /** An operator that finds the 32 slots full stops the assembler. */
  lemma FullOperatorStack(op: UnOp, rest: seq<Token>, table: SymbolTable, argBase: nat, depth: nat)
    requires depth <= MAXRECURSION
    ensures Eval([UnTok(op)] + rest, table, argBase, 32, depth) == Stopped(RecursionTooDeep)
  {
    var f := Frame(argBase, 32, [], [], true);
    RunOne(f, UnTok(op), table, depth);
    RunAppend(Running(f), [UnTok(op)], rest, table, depth);
  }

  /** Symbols cannot be looked up within 1000 macros. */
  lemma DeepRecursion(n: string, rest: seq<Token>, table: SymbolTable, argBase: nat, opBase: nat)
    ensures Eval([Sym(n)] + rest, table, argBase, opBase, 1000) == Stopped(RecursionTooDeep)
  {
    var f := Frame(argBase, opBase, [], [], true);
    RunOne(f, Sym(n), table, 1000);
    RunAppend(Running(f), [Sym(n)], rest, table, 1000);
  }
}
