/** What asm6's `eval` returns for short texts, told in plain arithmetic: every operator on every pair
    of numbers (asm6f.c:828-940), and which of two operators takes the operand between them
    (asm6f.c:728-731). */
module Asm6Operators {
  import opened CInt
  import opened PlainArithmetic
  import opened Asm6Expression

  function Ask(toks: seq<Token>, labels: Labels): (int, State) {
    Eval(State(toks, false, false, NoError), 0, labels)
  }

  /** The value of a text that is read to its end without an error or anything unresolved. */
  function Ends(toks: seq<Token>, labels: Labels): Option {
    var (v, t) := Ask(toks, labels);
    if t == State([], false, false, NoError) then Some(v) else None
  }

  /** A number, or a name with a known value. */
  predicate IsNumber(t: Token, labels: Labels) {
    t.Num? || (t.Name? && t.name in labels.table && labels.table[t.name].Symbol? && labels.table[t.name].known)
  }

  function Reads(t: Token, labels: Labels): int
    requires IsNumber(t, labels)
  {
    if t.Num? then t.val else labels.table[t.name].val
  }

  // ---------------------------------------------------------------- from trees to texts

  function Leaf(t: Token, labels: Labels): Expr
    requires IsNumber(t, labels)
  {
    if t.Num? then Lit(t.val) else Var(t.name)
  }

  /** `e` spells `toks` and comes to `v`. */
  predicate Part(e: Expr, toks: seq<Token>, v: Option, labels: Labels) {
    WellPrinted(e) && Print(e) == toks && Resolved(e, labels) && Denote(e, labels) == v
  }

  lemma LeafPart(t: Token, labels: Labels)
    requires IsNumber(t, labels)
    ensures Part(Leaf(t, labels), [t], Some(Reads(t, labels)), labels) && Strength(Leaf(t, labels)) == 12
  {
  }

  lemma AskPart(e: Expr, toks: seq<Token>, v: Option, labels: Labels)
    requires Part(e, toks, v, labels)
    ensures Ends(toks, labels) == v
  {
    assert Print(e) + [] == Print(e);
    EvalInvertsPrint(e, [], false, labels);
    ResolvedFate(e, labels);
  }

  /** An operator between parts, of which the left one may hold the operator's own. */
  function Join(op: BinOp, x: Option, y: Option): Option {
    if x.None? || y.None? then None else ApplyBin(op, x.val, y.val)
  }

  lemma BinPart(op: BinOp, l: Expr, left: seq<Token>, x: Option, r: Expr, right: seq<Token>, y: Option, labels: Labels)
    requires Part(l, left, x, labels) && Part(r, right, y, labels)
    requires Prec(op) <= Strength(l) && Prec(op) < Strength(r)
    ensures Part(Bin(op, l, r), left + [BinTok(op)] + right, Join(op, x, y), labels)
  {
  }

  lemma UnPart(op: UnOp, e: Expr, toks: seq<Token>, x: int, labels: Labels)
    requires Part(e, toks, Some(x), labels) && Strength(e) == 12
    ensures Part(Un(op, e), [UnTok(op)] + toks, Some(ApplyUn(op, x)), labels)
  {
  }

  lemma ParenPart(e: Expr, toks: seq<Token>, v: Option, labels: Labels)
    requires Part(e, toks, v, labels)
    ensures Part(Paren(e), [Open] + toks + [Close], v, labels) && Strength(Paren(e)) == 12
  {
  }

  lemma AskTwo(t: Token, op: BinOp, u: Token, labels: Labels)
    requires IsNumber(t, labels) && IsNumber(u, labels)
    ensures Ends([t, BinTok(op), u], labels) == ApplyBin(op, Reads(t, labels), Reads(u, labels))
  {
    var x, y := Some(Reads(t, labels)), Some(Reads(u, labels));
    LeafPart(t, labels);
    LeafPart(u, labels);
    BinPart(op, Leaf(t, labels), [t], x, Leaf(u, labels), [u], y, labels);
    Flatten(t, BinTok(op), u, u, u, u, u);
    AskPart(Bin(op, Leaf(t, labels), Leaf(u, labels)), [t] + [BinTok(op)] + [u], Join(op, x, y), labels);
  }

  lemma AskUnary(op: UnOp, t: Token, labels: Labels)
    requires IsNumber(t, labels)
    ensures Ends([UnTok(op), t], labels) == Some(ApplyUn(op, Reads(t, labels)))
  {
    var x := Reads(t, labels);
    LeafPart(t, labels);
    UnPart(op, Leaf(t, labels), [t], x, labels);
    Flatten(UnTok(op), t, t, t, t, t, t);
    AskPart(Un(op, Leaf(t, labels)), [UnTok(op)] + [t], Some(ApplyUn(op, x)), labels);
  }

  /** The ways in which texts are put together here. */
  lemma Flatten<T>(a: T, b: T, c: T, d: T, e: T, f: T, g: T)
    ensures [a] + [b] == [a, b] && [a] + [b] + [c] == [a, b, c]
    ensures [a] + [b] + ([c] + ([d] + [e] + [f]) + [g]) == [a, b, c, d, e, f, g]
    ensures [a] + ([b] + [c] + [d]) + [e] + [f] + [g] == [a, b, c, d, e, f, g]
    ensures [a] + [b] + ([c] + [d] + [e]) == [a, b, c, d, e] && [a] + [b] + [c] + [d] + [e] == [a, b, c, d, e]
    ensures [a] + [b] + [c] + [d] == [a, b, c, d] && [a] + [b] + ([c] + [d]) == [a, b, c, d]
    ensures [a] + ([b] + [c]) + [d] + [e] + [f] == [a, b, c, d, e, f]
    ensures [a] + [b] + ([c] + ([d] + [e]) + [f]) == [a, b, c, d, e, f]
  {
  }

  lemma AskRight(t: Token, o: BinOp, u: Token, m: BinOp, v: Token, labels: Labels)
    requires IsNumber(t, labels) && IsNumber(u, labels) && IsNumber(v, labels)
    ensures var r := Join(o, Some(Reads(t, labels)), ApplyBin(m, Reads(u, labels), Reads(v, labels)));
            Ends([t, BinTok(o), Open, u, BinTok(m), v, Close], labels) == r
            && (Prec(o) < Prec(m) ==> Ends([t, BinTok(o), u, BinTok(m), v], labels) == r)
  {
    var x, y, z := Reads(t, labels), Reads(u, labels), Reads(v, labels);
    var a, inner := Leaf(t, labels), Bin(m, Leaf(u, labels), Leaf(v, labels));
    var toks, w := [u] + [BinTok(m)] + [v], Join(m, Some(y), Some(z));
    LeafPart(t, labels);
    LeafPart(u, labels);
    LeafPart(v, labels);
    BinPart(m, Leaf(u, labels), [u], Some(y), Leaf(v, labels), [v], Some(z), labels);
    ParenPart(inner, toks, w, labels);
    BinPart(o, a, [t], Some(x), Paren(inner), [Open] + toks + [Close], w, labels);
    AskPart(Bin(o, a, Paren(inner)), [t] + [BinTok(o)] + ([Open] + toks + [Close]), Join(o, Some(x), w), labels);
    Flatten(t, BinTok(o), Open, u, BinTok(m), v, Close);
    Flatten(t, BinTok(o), u, BinTok(m), v, v, v);
    if Prec(o) < Prec(m) {
      BinPart(o, a, [t], Some(x), inner, toks, w, labels);
      AskPart(Bin(o, a, inner), [t] + [BinTok(o)] + toks, Join(o, Some(x), w), labels);
    }
  }

  lemma AskLeft(t: Token, o: BinOp, u: Token, m: BinOp, v: Token, labels: Labels)
    requires IsNumber(t, labels) && IsNumber(u, labels) && IsNumber(v, labels)
    ensures var r := Join(m, ApplyBin(o, Reads(t, labels), Reads(u, labels)), Some(Reads(v, labels)));
            Ends([Open, t, BinTok(o), u, Close, BinTok(m), v], labels) == r
            && (Prec(m) <= Prec(o) ==> Ends([t, BinTok(o), u, BinTok(m), v], labels) == r)
  {
    var x, y, z := Reads(t, labels), Reads(u, labels), Reads(v, labels);
    var inner, a := Bin(o, Leaf(t, labels), Leaf(u, labels)), Leaf(v, labels);
    var toks, w := [t] + [BinTok(o)] + [u], Join(o, Some(x), Some(y));
    LeafPart(t, labels);
    LeafPart(u, labels);
    LeafPart(v, labels);
    BinPart(o, Leaf(t, labels), [t], Some(x), Leaf(u, labels), [u], Some(y), labels);
    ParenPart(inner, toks, w, labels);
    BinPart(m, Paren(inner), [Open] + toks + [Close], w, a, [v], Some(z), labels);
    AskPart(Bin(m, Paren(inner), a), [Open] + toks + [Close] + [BinTok(m)] + [v], Join(m, w, Some(z)), labels);
    Flatten(Open, t, BinTok(o), u, Close, BinTok(m), v);
    Flatten(t, BinTok(o), u, BinTok(m), v, v, v);
    if Prec(m) <= Prec(o) {
      BinPart(m, inner, toks, w, a, [v], Some(z), labels);
      AskPart(Bin(m, inner, a), toks + [BinTok(m)] + [v], Join(m, w, Some(z)), labels);
    }
  }

  // ---------------------------------------------------------------- every operator

  lemma Arithmetic(t: Token, u: Token, labels: Labels)
    requires IsNumber(t, labels) && IsNumber(u, labels)
    ensures var x, y := Reads(t, labels), Reads(u, labels);
            Ends([t, BinTok(Plus), u], labels) == Some(Wrap32(x + y))
            && Ends([t, BinTok(Minus), u], labels) == Some(Wrap32(x - y))
            && Ends([t, BinTok(Mul), u], labels) == Some(Wrap32(x * y))
  {
    var x, y := Reads(t, labels), Reads(u, labels);
    AskTwo(t, Plus, u, labels);
    AskTwo(t, Minus, u, labels);
    AskTwo(t, Mul, u, labels);
  }

  /** Both truncate toward zero and need a divisor other than 0; `ZeroDivisor` tells the error. */
  lemma Divisions(t: Token, u: Token, labels: Labels)
    requires IsNumber(t, labels) && IsNumber(u, labels)
    ensures var x, y := Reads(t, labels), Reads(u, labels);
            Ends([t, BinTok(Div), u], labels) == (if y == 0 then None else Some(Wrap32(Truncated(x, y))))
            && Ends([t, BinTok(Mod), u], labels) == (if y == 0 then None else Some(Rest(x, y)))
  {
    var x, y := Reads(t, labels), Reads(u, labels);
    AskTwo(t, Div, u, labels);
    AskTwo(t, Mod, u, labels);
    if y != 0 {
      DivisionTruncates(x, y);
    }
  }

  /** `PowerBits` says what `Pow2` is. */
  lemma Shifts(t: Token, u: Token, labels: Labels)
    requires IsNumber(t, labels) && IsNumber(u, labels)
    ensures var x, y := Reads(t, labels), Reads(u, labels);
            Ends([t, BinTok(LeftShift), u], labels) == Some(if y < 0 then 0 else Wrap32(x * Pow2(y)))
            && Ends([t, BinTok(RightShift), u], labels) == Some(if y < 0 then 0 else x / Pow2(y))
  {
    var x, y := Reads(t, labels), Reads(u, labels);
    AskTwo(t, LeftShift, u, labels);
    AskTwo(t, RightShift, u, labels);
  }

  lemma Comparisons(t: Token, u: Token, labels: Labels)
    requires IsNumber(t, labels) && IsNumber(u, labels)
    ensures var x, y := Reads(t, labels), Reads(u, labels);
            Ends([t, BinTok(Greater), u], labels) == Some(OneIf(x > y))
            && Ends([t, BinTok(GreaterEq), u], labels) == Some(OneIf(x >= y))
            && Ends([t, BinTok(Less), u], labels) == Some(OneIf(x < y))
            && Ends([t, BinTok(LessEq), u], labels) == Some(OneIf(x <= y))
            && Ends([t, BinTok(Equal), u], labels) == Some(OneIf(x == y))
            && Ends([t, BinTok(NotEqual), u], labels) == Some(OneIf(x != y))
  {
    AskTwo(t, Greater, u, labels);
    AskTwo(t, GreaterEq, u, labels);
    AskTwo(t, Less, u, labels);
    AskTwo(t, LessEq, u, labels);
    AskTwo(t, Equal, u, labels);
    AskTwo(t, NotEqual, u, labels);
  }

  lemma BitOperators(t: Token, u: Token, labels: Labels, k: nat)
    requires IsNumber(t, labels) && IsNumber(u, labels)
    ensures var x, y := Reads(t, labels), Reads(u, labels);
            var conj, disj, diff := Ends([t, BinTok(And), u], labels), Ends([t, BinTok(Or), u], labels), Ends([t, BinTok(Xor), u], labels);
            conj.Some? && disj.Some? && diff.Some?
            && (Bit(conj.val, k) <==> Bit(x, k) && Bit(y, k))
            && (Bit(disj.val, k) <==> Bit(x, k) || Bit(y, k))
            && (Bit(diff.val, k) <==> Bit(x, k) != Bit(y, k))
  {
    var x, y := Reads(t, labels), Reads(u, labels);
    AskTwo(t, And, u, labels);
    AskTwo(t, Or, u, labels);
    AskTwo(t, Xor, u, labels);
    BitwiseBits(AND, x, y, k);
    BitwiseBits(OR, x, y, k);
    BitwiseBits(XOR, x, y, k);
  }

  lemma Connectives(t: Token, u: Token, labels: Labels)
    requires IsNumber(t, labels) && IsNumber(u, labels)
    ensures var x, y := Reads(t, labels), Reads(u, labels);
            Ends([t, BinTok(AndAnd), u], labels) == Some(OneIf(x != 0 && y != 0))
            && Ends([t, BinTok(OrOr), u], labels) == Some(OneIf(x != 0 || y != 0))
  {
    AskTwo(t, AndAnd, u, labels);
    AskTwo(t, OrOr, u, labels);
  }

  lemma UnaryOperators(t: Token, labels: Labels)
    requires IsNumber(t, labels)
    ensures var x := Reads(t, labels);
            Ends([UnTok(Invert), t], labels) == Some(-1 - x)
            && Ends([UnTok(Not), t], labels) == Some(OneIf(x == 0))
            && Ends([UnTok(Posit), t], labels) == Some(x)
            && Ends([UnTok(Negate), t], labels) == Some(Wrap32(-x))
  {
    AskUnary(Invert, t, labels);
    AskUnary(Not, t, labels);
    AskUnary(Posit, t, labels);
    AskUnary(Negate, t, labels);
  }

  lemma ByteOperators(t: Token, labels: Labels)
    requires IsNumber(t, labels)
    ensures var x := Reads(t, labels);
            Ends([UnTok(LowByte), t], labels) == Some(x % 256) && Ends([UnTok(HighByte), t], labels) == Some(x / 256 % 256)
  {
    var x := Reads(t, labels);
    AskUnary(LowByte, t, labels);
    AskUnary(HighByte, t, labels);
    LowByteIsModulus(x);
    LowByteIsModulus(x / 256);
    Shift8(x);
  }

  // ---------------------------------------------------------------- which operator comes first

  /** The levels, the tightest first; operators of one level group to the left. */
  const LEVELS: seq<set<BinOp>> := [
    {Mul, Div, Mod},
    {Plus, Minus},
    {LeftShift, RightShift},
    {Greater, GreaterEq, Less, LessEq},
    {Equal, NotEqual},
    {And},
    {Xor},
    {Or},
    {AndAnd},
    {OrOr}
  ]

  lemma LevelOf(op: BinOp, i: nat)
    requires i < 10 && op in LEVELS[i]
    ensures Prec(op) == 10 - i
  {
    assert op in LEVELS[i];
  }

  /** Every operator has a level. */
  lemma LevelsCover(op: BinOp)
    ensures exists i :: 0 <= i < 10 && op in LEVELS[i]
  {
    assert op in LEVELS[10 - Prec(op)];
  }

  /** Without parentheses, the tighter of two operators takes the operand between them, and the left
      one if they are of one level. */
  lemma Grouping(t: Token, o: BinOp, u: Token, m: BinOp, v: Token, i: nat, j: nat, labels: Labels)
    requires IsNumber(t, labels) && IsNumber(u, labels) && IsNumber(v, labels)
    requires i < 10 && j < 10 && o in LEVELS[i] && m in LEVELS[j]
    ensures Ends([t, BinTok(o), u, BinTok(m), v], labels)
         == if j < i then Ends([t, BinTok(o), Open, u, BinTok(m), v, Close], labels)
            else Ends([Open, t, BinTok(o), u, Close, BinTok(m), v], labels)
  {
    LevelOf(o, i);
    LevelOf(m, j);
    AskRight(t, o, u, m, v, labels);
    AskLeft(t, o, u, m, v, labels);
  }

  /** A unary operator takes the operand behind it before any binary one does. */
  lemma UnaryFirst(op: UnOp, t: Token, o: BinOp, u: Token, labels: Labels)
    requires IsNumber(t, labels) && IsNumber(u, labels)
    ensures Ends([UnTok(op), t, BinTok(o), u], labels) == Ends([Open, UnTok(op), t, Close, BinTok(o), u], labels)
  {
    var x, y := ApplyUn(op, Reads(t, labels)), Reads(u, labels);
    var e, a, toks := Un(op, Leaf(t, labels)), Leaf(u, labels), [UnTok(op)] + [t];
    LeafPart(t, labels);
    LeafPart(u, labels);
    UnPart(op, Leaf(t, labels), [t], Reads(t, labels), labels);
    ParenPart(e, toks, Some(x), labels);
    BinPart(o, e, toks, Some(x), a, [u], Some(y), labels);
    BinPart(o, Paren(e), [Open] + toks + [Close], Some(x), a, [u], Some(y), labels);
    AskPart(Bin(o, e, a), toks + [BinTok(o)] + [u], Join(o, Some(x), Some(y)), labels);
    AskPart(Bin(o, Paren(e), a), [Open] + toks + [Close] + [BinTok(o)] + [u], Join(o, Some(x), Some(y)), labels);
    Flatten(UnTok(op), t, BinTok(o), u, u, u, u);
    Flatten(Open, UnTok(op), t, Close, BinTok(o), u, u);
  }

  /** Also behind a binary operator. */
  lemma UnaryFirstRight(t: Token, o: BinOp, op: UnOp, u: Token, labels: Labels)
    requires IsNumber(t, labels) && IsNumber(u, labels)
    ensures Ends([t, BinTok(o), UnTok(op), u], labels) == Ends([t, BinTok(o), Open, UnTok(op), u, Close], labels)
  {
    var x, y := Reads(t, labels), ApplyUn(op, Reads(u, labels));
    var a, e, toks := Leaf(t, labels), Un(op, Leaf(u, labels)), [UnTok(op)] + [u];
    LeafPart(t, labels);
    LeafPart(u, labels);
    UnPart(op, Leaf(u, labels), [u], Reads(u, labels), labels);
    ParenPart(e, toks, Some(y), labels);
    BinPart(o, a, [t], Some(x), e, toks, Some(y), labels);
    BinPart(o, a, [t], Some(x), Paren(e), [Open] + toks + [Close], Some(y), labels);
    AskPart(Bin(o, a, e), [t] + [BinTok(o)] + toks, Join(o, Some(x), Some(y)), labels);
    AskPart(Bin(o, a, Paren(e)), [t] + [BinTok(o)] + ([Open] + toks + [Close]), Join(o, Some(x), Some(y)), labels);
    Flatten(t, BinTok(o), UnTok(op), u, u, u, u);
    Flatten(t, BinTok(o), Open, UnTok(op), u, Close, u);
  }

  // ---------------------------------------------------------------- neighbouring levels in plain arithmetic

  function Text(a: int, o: BinOp, b: int, m: BinOp, d: int): seq<Token> {
    [Num(a), BinTok(o), Num(b), BinTok(m), Num(d)]
  }

  /** What `a o b m d` comes to, from the two operators. */
  lemma AskText(a: int, o: BinOp, b: int, m: BinOp, d: int, labels: Labels)
    ensures Ends(Text(a, o, b, m, d), labels)
         == if Prec(o) < Prec(m) then Join(o, Some(a), ApplyBin(m, b, d)) else Join(m, ApplyBin(o, a, b), Some(d))
  {
    AskRight(Num(a), o, Num(b), m, Num(d), labels);
    AskLeft(Num(a), o, Num(b), m, Num(d), labels);
  }

  lemma ProductInSum(a: int, b: int, d: int, labels: Labels)
    ensures Ends(Text(a, Plus, b, Mul, d), labels) == Some(Wrap32(a + b * d))
  {
    AskText(a, Plus, b, Mul, d, labels);
    AddTo(Mul, b, d, b * d, a);
  }

  lemma ProductThenSum(a: int, b: int, d: int, labels: Labels)
    ensures Ends(Text(a, Mul, b, Plus, d), labels) == Some(Wrap32(a * b + d))
  {
    AskText(a, Mul, b, Plus, d, labels);
    AddTo(Mul, a, b, a * b, d);
  }

  /** Adding to a result that is wrapped already, on either side. */
  lemma AddTo(op: BinOp, a: int, b: int, x: int, d: int)
    requires ApplyBin(op, a, b) == Some(Wrap32(x))
    ensures Join(Plus, ApplyBin(op, a, b), Some(d)) == Some(Wrap32(x + d))
    ensures Join(Plus, Some(d), ApplyBin(op, a, b)) == Some(Wrap32(d + x))
  {
    WrapSum(x, d);
  }

  lemma DifferencesToTheLeft(a: int, b: int, d: int, labels: Labels)
    ensures Ends(Text(a, Minus, b, Minus, d), labels) == Some(Wrap32(a - b - d))
  {
    AskText(a, Minus, b, Minus, d, labels);
    SubtractFrom(a, b, d);
  }

  lemma SubtractFrom(a: int, b: int, d: int)
    ensures Join(Minus, ApplyBin(Minus, a, b), Some(d)) == Some(Wrap32(a - b - d))
  {
    WrapSum(a - b, -d);
  }

  lemma SumInShift(a: int, b: int, d: int, labels: Labels)
    requires 0 <= b + d < 0x8000_0000
    ensures Ends(Text(a, LeftShift, b, Plus, d), labels) == Some(Wrap32(a * Pow2(b + d)))
  {
    AskText(a, LeftShift, b, Plus, d, labels);
  }

  lemma SumThenShift(a: int, b: int, d: int, labels: Labels)
    requires d >= 0
    ensures Ends(Text(a, Plus, b, LeftShift, d), labels) == Some(Wrap32((a + b) * Pow2(d)))
  {
    AskText(a, Plus, b, LeftShift, d, labels);
    WrapProduct(a + b, Pow2(d), (a + b) * Pow2(d));
  }

  lemma ShiftsInComparisons(a: int, b: int, d: int, labels: Labels)
    ensures d >= 0 ==> Ends(Text(a, Greater, b, RightShift, d), labels) == Some(OneIf(a > b / Pow2(d)))
    ensures b >= 0 ==> Ends(Text(a, RightShift, b, Greater, d), labels) == Some(OneIf(a / Pow2(b) > d))
  {
    AskText(a, Greater, b, RightShift, d, labels);
    AskText(a, RightShift, b, Greater, d, labels);
  }

  lemma ComparisonsInEqualities(a: int, b: int, d: int, labels: Labels)
    ensures Ends(Text(a, Equal, b, Greater, d), labels) == Some(OneIf(a == OneIf(b > d)))
    ensures Ends(Text(a, Greater, b, Equal, d), labels) == Some(OneIf(OneIf(a > b) == d))
  {
    AskText(a, Equal, b, Greater, d, labels);
    AskText(a, Greater, b, Equal, d, labels);
  }

  lemma EqualitiesInConjunctions(a: int, b: int, d: int, labels: Labels)
    ensures Ends(Text(a, And, b, Equal, d), labels) == Some(if b == d then a % 2 else 0)
    ensures Ends(Text(a, Equal, b, And, d), labels) == Some(if a == b then d % 2 else 0)
  {
    AskText(a, And, b, Equal, d, labels);
    AskText(a, Equal, b, And, d, labels);
    AndOne(a);
    AndZero(a);
    AndOne(d);
    AndZero(d);
  }

  lemma BitConjunctionsFirst(a: int, b: int, d: int, k: nat, labels: Labels)
    ensures var r := Ends(Text(a, Xor, b, And, d), labels);
            r.Some? && (Bit(r.val, k) <==> Bit(a, k) != (Bit(b, k) && Bit(d, k)))
    ensures var r := Ends(Text(a, And, b, Xor, d), labels);
            r.Some? && (Bit(r.val, k) <==> (Bit(a, k) && Bit(b, k)) != Bit(d, k))
  {
    AskText(a, Xor, b, And, d, labels);
    AskText(a, And, b, Xor, d, labels);
    BitwiseBits(XOR, a, Bitwise(AND, b, d), k);
    BitwiseBits(AND, b, d, k);
    BitwiseBits(XOR, Bitwise(AND, a, b), d, k);
    BitwiseBits(AND, a, b, k);
  }

  lemma BitDifferencesFirst(a: int, b: int, d: int, k: nat, labels: Labels)
    ensures var r := Ends(Text(a, Or, b, Xor, d), labels);
            r.Some? && (Bit(r.val, k) <==> Bit(a, k) || Bit(b, k) != Bit(d, k))
    ensures var r := Ends(Text(a, Xor, b, Or, d), labels);
            r.Some? && (Bit(r.val, k) <==> Bit(a, k) != Bit(b, k) || Bit(d, k))
  {
    AskText(a, Or, b, Xor, d, labels);
    AskText(a, Xor, b, Or, d, labels);
    BitwiseBits(OR, a, Bitwise(XOR, b, d), k);
    BitwiseBits(XOR, b, d, k);
    BitwiseBits(OR, Bitwise(XOR, a, b), d, k);
    BitwiseBits(XOR, a, b, k);
  }

  lemma BitsInConnectives(a: int, b: int, d: int, labels: Labels)
    ensures Ends(Text(a, AndAnd, b, Or, d), labels) == Some(OneIf(a != 0 && (b != 0 || d != 0)))
    ensures Ends(Text(a, Or, b, AndAnd, d), labels) == Some(OneIf((a != 0 || b != 0) && d != 0))
  {
    BitsBehind(a, b, d, labels);
    BitsBefore(a, b, d, labels);
  }

  lemma BitsBehind(a: int, b: int, d: int, labels: Labels)
    ensures Ends(Text(a, AndAnd, b, Or, d), labels) == Some(OneIf(a != 0 && (b != 0 || d != 0)))
  {
    AskText(a, AndAnd, b, Or, d, labels);
    BothTrue(a, Bitwise(OR, b, d));
    OrIsZero(b, d);
  }

  lemma BitsBefore(a: int, b: int, d: int, labels: Labels)
    ensures Ends(Text(a, Or, b, AndAnd, d), labels) == Some(OneIf((a != 0 || b != 0) && d != 0))
  {
    AskText(a, Or, b, AndAnd, d, labels);
    BothTrue(Bitwise(OR, a, b), d);
    OrIsZero(a, b);
  }

  lemma BothTrue(a: int, b: int)
    ensures Join(AndAnd, Some(a), Some(b)) == Some(if a == 0 || b == 0 then 0 else 1)
  {
  }

  lemma ConjunctionsFirst(a: int, b: int, d: int, labels: Labels)
    ensures Ends(Text(a, OrOr, b, AndAnd, d), labels) == Some(OneIf(a != 0 || (b != 0 && d != 0)))
    ensures Ends(Text(a, AndAnd, b, OrOr, d), labels) == Some(OneIf((a != 0 && b != 0) || d != 0))
  {
    AskText(a, OrOr, b, AndAnd, d, labels);
    AskText(a, AndAnd, b, OrOr, d, labels);
    BothTrue(a, b);
    BothTrue(b, d);
  }

  // ---------------------------------------------------------------- errors and unresolved names

  /** How `eval` goes through two operands and their operator. */
  lemma AskSteps(t: Token, op: BinOp, u: Token, v: int, s: State, w: int, z: State, labels: Labels)
    requires (t.Num? || t.Name?) && (u.Num? || u.Name?)
    requires Operate(t, [BinTok(op), u], false, false, NoError, labels) == (v, s)
    requires Operate(u, [], s.dependant, s.need, s.err, labels) == (w, z)
    ensures var (x, r) := ApplyOperator(op, v, w, z);
            Ask([t, BinTok(op), u], labels) == (x, if r.err == NoError then r else r.(rest := [BinTok(op), u]))
  {
    assert [t] + [BinTok(op), u] == [t, BinTok(op), u];
    FirstOperand(t, [BinTok(op), u], labels);
    LastOperand(op, u, s, labels);
    ClimbsOnce(op, u, v, s, w, z, labels);
  }

  lemma FirstOperand(t: Token, rest: seq<Token>, labels: Labels)
    requires t.Num? || t.Name?
    ensures var (v, s) := Operate(t, rest, false, false, NoError, labels);
            Ask([t] + rest, labels) == Climb(v, s, 0, labels)
  {
    var s := State([t] + rest, false, false, NoError);
    assert s.rest[0] == t && Advance(s) == State(rest, false, false, NoError);
    assert Operand(s, labels) == Operate(t, rest, false, false, NoError, labels);
  }

  lemma LastOperand(op: BinOp, u: Token, s: State, labels: Labels)
    requires (u.Num? || u.Name?) && s.rest == [BinTok(op), u]
    ensures Eval(Advance(s), Prec(op), labels) == Operate(u, [], s.dependant, s.need, s.err, labels)
  {
    assert s.rest[1..] == [u] && [u][1..] == [];
  }

  lemma ClimbsOnce(op: BinOp, u: Token, v: int, s: State, w: int, z: State, labels: Labels)
    requires s.rest == [BinTok(op), u] && Eval(Advance(s), Prec(op), labels) == (w, z) && z.rest == []
    ensures var (x, r) := ApplyOperator(op, v, w, z);
            Climb(v, s, 0, labels) == (x, if r.err == NoError then r else r.(rest := [BinTok(op), u]))
  {
  }

  /** The operand at the cursor, with `rest` behind it. */
  function Operate(t: Token, rest: seq<Token>, dependant: bool, need: bool, err: Error, labels: Labels): (int, State)
    requires t.Num? || t.Name?
  {
    var s := State(rest, dependant, need, err);
    if t.Num? then (t.val, s) else LookUp(s, t.name, labels)
  }

  lemma ZeroDivisor(t: Token, u: Token, labels: Labels)
    requires IsNumber(t, labels) && IsNumber(u, labels) && Reads(u, labels) == 0
    ensures Ask([t, BinTok(Div), u], labels).1.err == DivZero && Ask([t, BinTok(Mod), u], labels).1.err == DivZero
  {
    var v, z := Reads(t, labels), State([], false, false, NoError);
    AskSteps(t, Div, u, v, State([BinTok(Div), u], false, false, NoError), 0, z, labels);
    AskSteps(t, Mod, u, v, State([BinTok(Mod), u], false, false, NoError), 0, z, labels);
  }

  /** A name without a known value so far, before the last pass. */
  predicate Unresolved(t: Token, labels: Labels) {
    t.Name? && !labels.lastchance
    && (t.name in labels.table ==> labels.table[t.name].Symbol? && !labels.table[t.name].known)
  }

  /** With an unresolved operand any operator gives 0, no error, and asks for another pass. */
  lemma UnresolvedIsZero(t: Token, op: BinOp, u: Token, labels: Labels)
    requires Unresolved(t, labels) || Unresolved(u, labels)
    requires Unresolved(t, labels) || IsNumber(t, labels)
    requires Unresolved(u, labels) || IsNumber(u, labels)
    ensures Ask([t, BinTok(op), u], labels) == (0, State([], true, true, NoError))
  {
    var (v, s) := Operate(t, [BinTok(op), u], false, false, NoError, labels);
    var (w, z) := Operate(u, [], s.dependant, s.need, s.err, labels);
    assert s == State([BinTok(op), u], Unresolved(t, labels), Unresolved(t, labels), NoError);
    assert z == State([], true, true, NoError);
    AskSteps(t, op, u, v, s, w, z, labels);
  }

  /** At the end of the text, or at a closing parenthesis, an operand is missing; a parenthesis that is not
      closed is told, too. */
  lemma Malformed(t: Token, labels: Labels)
    requires IsNumber(t, labels)
    ensures Ask([], labels).1.err == MissingOperand
    ensures Ask([Close], labels).1.err == MissingOperand
    ensures Ask([Open, t], labels).1.err == IncompleteExp
  {
    var s := State([Open, t], false, false, NoError);
    assert [Open, t][1..] == [t] && [t] + [] == [t];
    FirstOperand(t, [], labels);
    assert Eval(Advance(s), 0, labels).1 == State([], false, false, NoError);
    assert Operand(s, labels).1 == State([], false, false, IncompleteExp);
    assert Ask([Open, t], labels) == Climb(Operand(s, labels).0, Operand(s, labels).1, 0, labels);
  }

  /** An operator without its right operand. Its 0 counts as a divisor first. */
  lemma MissingRight(t: Token, op: BinOp, labels: Labels)
    requires IsNumber(t, labels)
    ensures Ask([t, BinTok(op)], labels).1.err == if op.Div? || op.Mod? then DivZero else MissingOperand
  {
    var v, s := Reads(t, labels), State([BinTok(op)], false, false, NoError);
    FirstOperand(t, [BinTok(op)], labels);
    assert [t] + [BinTok(op)] == [t, BinTok(op)] && [BinTok(op)][1..] == [];
    var z := State([], false, false, MissingOperand);
    assert Eval(Advance(s), Prec(op), labels) == (0, z);
    assert Climb(v, s, 0, labels).1.err == ApplyOperator(op, v, 0, z).1.err;
  }

  /** An operator without its left operand: 0 is divided if it can be. */
  lemma MissingLeft(t: Token, op: BinOp, labels: Labels)
    requires IsNumber(t, labels)
    ensures Ask([BinTok(op), t], labels).1.err
         == if (op.Div? || op.Mod?) && Reads(t, labels) == 0 then DivZero else MissingOperand
  {
    var s := State([BinTok(op), t], false, false, NoError);
    var z := s.(err := MissingOperand);
    assert Operand(s, labels) == (0, z);
    LastOperand(op, t, z, labels);
    assert Climb(0, z, 0, labels).1.err == ApplyOperator(op, 0, Reads(t, labels), z.(rest := [])).1.err;
  }

  /** A `#` before a text that has a value makes no difference. */
  lemma HashIsIgnored(toks: seq<Token>, labels: Labels)
    requires Ends(toks, labels).Some?
    ensures Ends([Hash] + toks, labels) == Ends(toks, labels)
  {
    var s := State([Hash] + toks, false, false, NoError);
    assert s.rest[0] == Hash && Advance(s) == State(toks, false, false, NoError);
    var (v, t) := Ask(toks, labels);
    assert Operand(s, labels) == (v, t) == Climb(v, t, 0, labels);
    assert Ask([Hash] + toks, labels) == Eval(s, 0, labels) == Climb(v, t, 0, labels);
  }
}
