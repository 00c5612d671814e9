/** The evaluator of exp.c in its own form: global stacks with base pointers, updated in place.
    `Argstack`/`Argflags` are one array of pairs, `Opdis`/`Oppri` one array of entries. */
module DasmMachine {
  import opened DasmExpression

  datatype Stop = None | Some(why: Fatal)

  class Machine {
    const args: array<Arg>
    const ops: array<Entry>
    const table: SymbolTable
    var argi: nat
    var opi: nat
    var argibase: nat
    var opibase: nat
    var recursion: nat
    /** No diagnostic has been printed since the current `eval` began. */
    var clean: bool

    ghost predicate Valid()
      reads this
    {
      args.Length == MAXARGS && ops.Length == MAXOPS
      && argibase <= argi < MAXARGS && opibase <= opi <= MAXOPS && recursion <= MAXRECURSION
    }

    /** The part of the stacks that the current activation owns. */
    ghost function Own(): Frame
      reads this, args, ops
      requires Valid()
    {
      Frame(argibase, opibase, args[argibase..argi], ops[opibase..opi], clean)
    }

    /** Everything below the base pointers, and the bases themselves, are as in the old state. */
    twostate predicate Kept()
      reads this, args, ops
      requires old(Valid()) && Valid()
    {
      argibase == old(argibase) && opibase == old(opibase) && recursion == old(recursion)
      && args[..argibase] == old(args[..argibase]) && ops[..opibase] == old(ops[..opibase])
    }

    /** A step that `o` describes: it stops for `o`'s reason or leaves `o`'s stacks. */
    twostate predicate Did(stop: Stop, o: Outcome)
      reads this, args, ops
      requires old(Valid())
    {
      match o
      case Abort(why) => stop == Some(why)
      case Running(f) => stop == None && Valid() && Own() == f && Kept()
    }

    constructor (symbols: SymbolTable)
      ensures Valid() && table == symbols && argi == argibase == 0 && opi == opibase == 0 && recursion == 0
      ensures fresh(args) && fresh(ops)
    {
      args := new Arg[MAXARGS](_ => Arg(0, false));
      ops := new Entry[MAXOPS](_ => Bracket);
      table := symbols;
      argi, opi, argibase, opibase, recursion, clean := 0, 0, 0, 0, 0, true;
    }

    method EvalTop() returns (stop: Stop)
      requires Valid()
      modifies this, args, ops
      ensures Did(stop, DasmExpression.EvalTop(old(Own())))
      decreases opi - opibase, 0
    {
      ghost var f := Own();
      if opi <= opibase {
        clean := false;
        opi := opibase;
        return None;
      }
      opi := opi - 1;
      assert Own() == f.(ops := Pop(f.ops)) && ops[opi] == Top(f.ops);
      assert DasmExpression.EvalTop(f) == Apply(Own(), ops[opi]);
      match ops[opi]
      case Bracket => stop := Some(StrayBracket);
      case Unary(u) => stop := ApplyUnary(u);
      case Binary(b) => stop := ApplyBinary(b);
    }

    method ApplyUnary(u: UnOp) returns (stop: Stop)
      requires Valid()
      modifies this, args, ops
      ensures Did(stop, Apply(old(Own()), Unary(u)))
      decreases opi - opibase, 4
    {
      ghost var f := Own();
      if argi < argibase + 1 {
        clean := false;
        argi := argibase;
        return None;
      }
      argi := argi - 1;
      assert Own() == f.(args := Pop(f.args)) && args[argi] == Top(f.args);
      stop := StackArg(ApplyUn(u, args[argi]));
    }

    method ApplyBinary(b: BinOp) returns (stop: Stop)
      requires Valid()
      modifies this, args, ops
      ensures Did(stop, Apply(old(Own()), Binary(b)))
      decreases opi - opibase, 4
    {
      ghost var f := Own();
      if argi < argibase + 2 {
        clean := false;
        argi := argibase;
        return None;
      }
      argi := argi - 2;
      assert Own() == f.(args := f.args[..|f.args| - 2]);
      assert args[argi] == f.args[|f.args| - 2] && args[argi + 1] == Top(f.args);
      stop := Operate(b, args[argi], args[argi + 1]);
    }

    /** The `op_*` functions of two operands. */
    method Operate(b: BinOp, x: Arg, y: Arg) returns (stop: Stop)
      requires Valid()
      modifies this, args, ops
      ensures Did(stop, Settle(old(Own()), ApplyBin(b, x, y)))
      decreases opi - opibase, 3
    {
      match ApplyBin(b, x, y)
      case Fail(why) => stop := Some(why);
      case Val(v) => stop := StackArg(v);
    }

    method StackArg(a: Arg) returns (stop: Stop)
      requires Valid()
      modifies this, args, ops
      ensures Did(stop, DasmExpression.StackArg(old(Own()), a))
      decreases opi - opibase, 2
    {
      args[argi] := a;
      argi := argi + 1;
      if argi == MAXARGS {
        clean := false;
        argi := argibase;
      }
      assert Own() == PushArg(old(Own()), a);
      stop := Collapse(128);
    }

    /** Apply the pending operators, down to a bracket or the first that binds less tightly than `p`. */
    method Collapse(p: nat) returns (stop: Stop)
      requires Valid()
      modifies this, args, ops
      ensures Did(stop, Norm(old(Own()), p))
      decreases opi - opibase, 1
    {
      while opi != opibase && Pri(ops[opi - 1]) != 0 && p <= Pri(ops[opi - 1])
        invariant Valid() && Kept() && opi <= old(opi)
        invariant Norm(Own(), p) == Norm(old(Own()), p)
        decreases opi - opibase
      {
        assert Top(Own().ops) == ops[opi - 1];
        stop := EvalTop();
        if stop.Some? {
          return;
        }
      }
      return None;
    }

    method DoOp(e: Entry) returns (stop: Stop)
      requires Valid() && e != Bracket
      modifies this, args, ops
      ensures Did(stop, DasmExpression.DoOp(old(Own()), e))
    {
      if opi == opibase || e.Unary? {
        if opi >= MAXOPS {
          return Some(RecursionTooDeep);
        }
        ops[opi] := e;
        opi := opi + 1;
        assert Own() == old(Own()).(ops := old(Own()).ops + [e]);
        return None;
      }
      stop := Collapse(Pri(e));
      if stop.None? {
        stop := PushOp(e);
      }
    }

    /** The end of `doop`, after the pending operators have been evaluated. */
    method PushOp(e: Entry) returns (stop: Stop)
      requires Valid()
      modifies this, args, ops
      ensures var g := old(Own());
              Did(stop, if g.opBase + |g.ops| >= MAXOPS then Abort(OpStackOverrun)
                        else if g.opBase + |g.ops| + 1 == MAXOPS then Running(g.(ops := [], clean := false))
                        else Running(g.(ops := g.ops + [e])))
    {
      if opi >= MAXOPS {
        return Some(OpStackOverrun);
      }
      ops[opi] := e;
      opi := opi + 1;
      if opi == MAXOPS {
        clean := false;
        opi := opibase;
      }
      return None;
    }

    method OpenBracket()
      requires Valid()
      modifies this, ops
      ensures Did(None, Running(DasmExpression.OpenBracket(old(Own()))))
    {
      if opi == MAXOPS {
        clean := false;
      } else {
        ops[opi] := Bracket;
        opi := opi + 1;
      }
    }

    method CloseBracket() returns (stop: Stop)
      requires Valid()
      modifies this, args, ops
      ensures Did(stop, DasmExpression.CloseBracket(old(Own())))
    {
      stop := Collapse(1);
      if stop.None? {
        ghost var g := Own();
        if opi != opibase {
          opi := opi - 1;
          assert Own() == g.(ops := Pop(g.ops));
        }
        if argi == argibase {
          clean := false;
        }
      }
    }

    /** Apply all pending operators of this activation. */
    method Drain() returns (stop: Stop)
      requires Valid()
      modifies this, args, ops
      ensures Did(stop, DasmExpression.Drain(old(Own())))
    {
      while opi != opibase
        invariant Valid() && Kept()
        invariant DasmExpression.Drain(Own()) == DasmExpression.Drain(old(Own()))
        decreases opi - opibase
      {
        stop := EvalTop();
        if stop.Some? {
          return;
        }
      }
      return None;
    }

    method Take(t: Token) returns (stop: Stop)
      requires Valid()
      modifies this, args, ops
      ensures Did(stop, Step(old(Own()), t, table, old(recursion)))
      decreases MAXRECURSION - recursion, 1
    {
      match t
      case Num(v) => stop := StackArg(Arg(v, false));
      case Sym(name) => stop := PushSymbol(name);
      case UnTok(u) => stop := DoOp(Unary(u));
      case BinTok(b) => stop := DoOp(Binary(b));
      case Open => OpenBracket(); stop := None;
      case Close => stop := CloseBracket();
    }

    method PushSymbol(name: string) returns (stop: Stop)
      requires Valid()
      modifies this, args, ops
      ensures Did(stop, DasmExpression.PushSymbol(old(Own()), name, table, old(recursion)))
      decreases MAXRECURSION - recursion, 0
    {
      if recursion + 1 > MAXRECURSION {
        return Some(RecursionTooDeep);
      }
      recursion := recursion + 1;
      stop := PushValue(name);
      if stop.None? {
        recursion := recursion - 1;
      }
    }

    /** The symbol's value, found by evaluating its text if it is a macro. */
    method PushValue(name: string) returns (stop: Stop)
      requires Valid() && recursion >= 1
      modifies this, args, ops
      ensures Did(stop, DasmExpression.PushSymbol(old(Own()), name, table, old(recursion) - 1))
      decreases MAXRECURSION - recursion, 4
    {
      if name !in table {
        stop := StackArg(Arg(0, true));
      } else {
        match table[name]
        case Number(a) => stop := StackArg(a);
        case MacroText(body) =>
          var ans := Eval(body);
          if ans.Stopped? {
            return Some(ans.why);
          }
          stop := StackArg(ans.arg);
      }
    }

    /** Evaluate `toks` in a new activation, on top of whatever the stacks hold. */
    method Eval(toks: seq<Token>) returns (ans: Answer)
      requires Valid()
      modifies this, args, ops
      ensures ans == DasmExpression.Eval(toks, table, old(argi), old(opi), old(recursion))
      ensures ans.Answer? ==> Valid() && Kept() && Own() == old(Own()).(clean := old(clean) && ans.clean)
      decreases MAXRECURSION - recursion, 3
    {
      var oldargibase, oldopibase, oldclean := argibase, opibase, clean;
      argibase, opibase, clean := argi, opi, true;
      assert Own() == Frame(argi, opi, [], [], true);
      var stop := TakeAll(toks);
      if stop.Some? {
        return Stopped(stop.why);
      }
      ans := Finish();
      if ans.Answer? {
        argi, opi := argibase, opibase;
        argibase, opibase, clean := oldargibase, oldopibase, oldclean && ans.clean;
        SameParts(args[..argi], old(args[..argi]), argibase);
        SameParts(ops[..opi], old(ops[..opi]), opibase);
      }
    }

    method TakeAll(toks: seq<Token>) returns (stop: Stop)
      requires Valid()
      modifies this, args, ops
      ensures Did(stop, Run(Running(old(Own())), toks, table, old(recursion)))
      decreases MAXRECURSION - recursion, 2
    {
      var i := 0;
      while i < |toks|
        invariant 0 <= i <= |toks| && Valid() && Kept()
        invariant Run(Running(Own()), toks[i..], table, recursion) == Run(Running(old(Own())), toks, table, recursion)
      {
        stop := Take(toks[i]);
        assert toks[i..][1..] == toks[i + 1..];
        if stop.Some? {
          return;
        }
        i := i + 1;
      }
      return None;
    }

    /** The end of `eval`: evaluate what is pending and hand back the one argument that is left. */
    method Finish() returns (ans: Answer)
      requires Valid()
      modifies this, args, ops
      ensures ans == DasmExpression.Finish(Running(old(Own())))
      ensures ans.Answer? ==> Valid() && Kept()
    {
      ghost var f := Own();
      var stop := Drain();
      if stop.Some? {
        return Stopped(stop.why);
      }
      assert Own() == DasmExpression.Drain(f).f;
      var a := Arg(0, false);
      if argi != argibase {
        argi := argi - 1;
        a := args[argi];
      }
      if argi != argibase {
        clean := false;
      }
      return Answer(a, clean);
    }
  }

  lemma SameParts<T>(a: seq<T>, b: seq<T>, n: nat)
    requires a == b && n <= |a|
    ensures a[..n] == b[..n] && a[n..] == b[n..]
  {
  }

  /** Running the machine on any tree written with the brackets it needs gives the tree's meaning,
      and leaves the stacks of an enclosing evaluation as they were. */
  method Evaluate(m: Machine, e: Expr, defs: Defs) returns (ans: Answer)
    requires m.Valid() && m.table == Spell(defs) && AllWellBracketed(defs)
    requires Fits(AddBrackets(e), defs, m.recursion, m.argi, m.opi)
    modifies m, m.args, m.ops
    ensures match Denote(e, defs, old(m.recursion))
            case Fail(why) => ans == Stopped(why)
            case Val(a) => ans == Answer(a, true)
    ensures ans.Answer? ==> m.Valid() && m.Own() == old(m.Own())
    ensures ans.Answer? ==> m.args[..m.argibase] == old(m.args[..m.argibase]) && m.ops[..m.opibase] == old(m.ops[..m.opibase])
  {
    EvalWritten(e, defs, m.argi, m.opi, m.recursion);
    ans := m.Eval(Tokens(AddBrackets(e)));
  }
}
