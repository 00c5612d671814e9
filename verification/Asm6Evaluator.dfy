/** asm6's `eval` in its own form: a recursive method that advances a cursor and sets global flags. */
module Asm6Evaluator {
  import opened CInt
  import opened Asm6Expression

  class Evaluator {
    const toks: seq<Token>
    const labels: Labels
    var pos: nat
    var dependant: bool
    var needanotherpass: bool
    var errmsg: Error

    ghost predicate Valid()
      reads this
    {
      pos <= |toks|
    }

    ghost function Now(): State
      requires Valid()
      reads this
    {
      State(toks[pos..], dependant, needanotherpass, errmsg)
    }

    constructor (toks: seq<Token>, labels: Labels)
      ensures Valid() && this.toks == toks && this.labels == labels && Now() == State(toks, false, false, NoError)
    {
      this.toks, this.labels := toks, labels;
      pos, dependant, needanotherpass, errmsg := 0, false, false, NoError;
    }

    method GetValue(name: string) returns (ret: int)
      requires Valid()
      modifies `dependant, `needanotherpass, `errmsg
      ensures (ret, Now()) == LookUp(old(Now()), name, labels)
    {
      if name !in labels.table {
        needanotherpass, dependant := true, true;
        if labels.lastchance {
          errmsg := UnknownLabel;
        }
        ret := 0;
      } else {
        match labels.table[name]
        case Symbol(v, known) =>
          dependant := dependant || !known;
          needanotherpass := needanotherpass || !known;
          ret := v;
        case MacroName(empty) =>
          dependant := dependant || empty;
          needanotherpass := needanotherpass || empty;
          errmsg := MacroInExpression;
          ret := 0;
      }
    }

    method Eval(precedence: nat) returns (ret: int)
      requires Valid()
      modifies this
      ensures Valid() && old(pos) <= pos && (ret, Now()) == Asm6Expression.Eval(old(Now()), precedence, labels)
      decreases |toks| - pos, 1
    {
      ret := Operand();
      while true
        invariant Valid() && old(pos) <= pos
        invariant Climb(ret, Now(), precedence, labels) == Asm6Expression.Eval(old(Now()), precedence, labels)
        decreases |toks| - pos
      {
        if pos == |toks| || !toks[pos].BinTok? || precedence >= Prec(toks[pos].b) {
          return;
        }
        ghost var s := Now();
        var op, at := toks[pos].b, pos;
        pos := pos + 1;
        assert Now() == Advance(s);
        var val2 := Eval(Prec(op));
        ret := Apply(op, ret, val2);
        if errmsg != NoError {
          pos := at;
          return;
        }
      }
    }

    method Apply(op: BinOp, a: int, b: int) returns (ret: int)
      requires Valid()
      modifies `errmsg
      ensures Valid() && (ret, Now()) == ApplyOperator(op, a, b, old(Now()))
    {
      if dependant {
        return 0;
      }
      match ApplyBin(op, a, b)
      case None =>
        errmsg := DivZero;
        ret := a;
      case Some(v) => ret := v;
    }

    /** The look-up of a sign as a nameless label: it fails, and its verdicts are taken back. */
    method TrySign()
      requires Valid()
      modifies `errmsg
      ensures Valid() && Now() == if labels.lastchance || old(errmsg) == UnknownLabel then old(Now()).(err := NoError) else old(Now())
    {
      if labels.lastchance {
        errmsg := UnknownLabel;
      }
      if errmsg == UnknownLabel {
        errmsg := NoError;
      }
    }

    method Operand() returns (ret: int)
      requires Valid()
      modifies this
      ensures Valid() && old(pos) <= pos && (ret, Now()) == Asm6Expression.Operand(old(Now()), labels)
      decreases |toks| - pos, 0
    {
      if pos == |toks| || toks[pos].BinTok? || toks[pos].Close? {
        errmsg := MissingOperand;
        return 0;
      }
      ghost var s := Now();
      var t := toks[pos];
      pos := pos + 1;
      assert Now() == Advance(s) && s.rest[0] == t;
      match t
      {
        case Num(v) => ret := v;
        case Name(n) => ret := GetValue(n);
        case Open =>
          ret := Eval(WHOLEEXP);
          if pos < |toks| && toks[pos] == Close {
            ghost var u := Now();
            pos := pos + 1;
            assert Now() == Advance(u);
          } else {
            errmsg := IncompleteExp;
          }
        case Hash => ret := Eval(WHOLEEXP);
        case UnTok(u) =>
          if IsSign(u) {
            TrySign();
          }
          ret := Eval(UNARY);
          ret := ApplyUn(u, ret);
      }
    }
  }

  /** Running `eval` on a printed tree returns its value and consumes exactly the tree. It does so for a
      tree with a value, and for one that is mistaken for such a tree. */
  method EvalTree(e: Expr, tail: seq<Token>, labels: Labels) returns (ret: int, ev: Evaluator)
    requires NextPrec(tail) == 0
    ensures fresh(ev) && ev.Valid() && (!Failed(ev.Now()) <==> HasValue(e, labels) || Mistaken(e, labels))
    ensures !Failed(ev.Now()) ==> ret == Value(e, labels) && ev.Now() == State(tail, false, false, NoError)
    ensures HasValue(e, labels) ==> ret == Denote(e, labels).val
  {
    ev := new Evaluator(Print(AddParens(e)) + tail, labels);
    EvalInvertsMinimalPrint(e, tail, false, labels);
    ret := ev.Eval(WHOLEEXP);
  }
}
