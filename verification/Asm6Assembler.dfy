/** asm6's pass loop in its own form: globals updated line by line, pass after pass. Each method is
    proved to do what the functions of `Asm6Passes` say, so the theorems about those hold of it. */
module Asm6Assembler {
  import opened Bytes
  import opened Asm6Passes
  import opened Asm6PassRuns

  class Assembler {
    var labels: Table
    var addr: int
    var needanotherpass: bool
    var error: bool
    var errmsg: bool
    var dependant: bool
    var lastchance: bool
    var pass: nat
    var output: seq<byte>
    /** The creation number of the last label made; `startlabel` is its value at the start of the pass.
        Reserved words come first, so it is never 0. */
    var lastlabel: nat
    var startlabel: nat

    ghost predicate Valid()
      reads this
    {
      startlabel <= lastlabel && 0 < lastlabel
    }

    ghost function Now(): State
      reads this
    {
      State(labels, addr, needanotherpass, error, lastlabel != startlabel, output)
    }

    /** The globals that only the pass loop assigns are as before. */
    twostate predicate SamePass()
      reads this
    {
      lastchance == old(lastchance) && pass == old(pass) && startlabel == old(startlabel) && Valid()
    }

    constructor ()
      ensures Valid() && labels == map[] && !error && !lastchance && pass == 0
    {
      labels, addr, needanotherpass, error, errmsg, dependant := map[], -0x4000_0000, false, false, false, false;
      lastchance, pass, output, lastlabel, startlabel := false, 0, [], 1, 0;
    }

    method AddLabel(name: string)
      requires Valid() && !errmsg
      modifies this
      ensures SamePass() && (Now().(error := error || errmsg) == Asm6Passes.AddLabel(old(Now()), name, pass, lastchance))
    {
      if name !in labels {
        labels := labels[name := Entry(addr, pass)];
        lastlabel := lastlabel + 1;
      } else if labels[name].pass == pass {
        errmsg := true;
      } else {
        if labels[name].value != addr {
          needanotherpass := true;
          if lastchance {
            errmsg := true;
          }
        }
        labels := labels[name := Entry(addr, pass)];
      }
    }

    method GetValue(name: string) returns (ret: int)
      modifies `needanotherpass, `dependant, `errmsg
      ensures name in labels ==> ret == labels[name].value && needanotherpass == old(needanotherpass)
                                 && dependant == old(dependant) && errmsg == old(errmsg)
      ensures name !in labels ==> ret == 0 && needanotherpass && dependant && errmsg == (old(errmsg) || lastchance)
    {
      if name !in labels {
        needanotherpass, dependant := true, true;
        if lastchance {
          errmsg := true;
        }
        ret := 0;
      } else {
        ret := labels[name].value;
      }
    }

    method Output(bytes: seq<byte>)
      modifies `addr, `output
      ensures addr == old(addr) + |bytes| && output == old(output) + bytes
    {
      addr := addr + |bytes|;
      output := output + bytes;
    }

    /** One attempt of `opcode`'s loop: evaluate the operand, and emit the instruction if the form
        accepts it. Every attempt starts from `oldstate`. */
    method TryForm(form: Opcode, size: nat, operand: string, oldstate: bool) returns (done: bool)
      requires Valid() && 1 <= size <= 2 && form.Form?
      modifies this
      ensures SamePass() && labels == old(labels) && error == old(error) && lastlabel == old(lastlabel)
      ensures needanotherpass == (oldstate || operand !in labels)
      ensures done == if size == 1 then operand in labels && -128 <= labels[operand].value <= 255
                      else operand in labels ==> 0 <= labels[operand].value <= 0xFFFF
      ensures !done ==> addr == old(addr) && output == old(output)
      ensures done ==> var val := if operand in labels then labels[operand].value else 0;
                       var bytes := [form.code] + if size == 1 then [Low(val)] else Little(val);
                       addr == old(addr) + |bytes| && output == old(output) + bytes
                       && errmsg == (old(addr) > 0xFFFF || (operand !in labels && lastchance))
    {
      needanotherpass, dependant, errmsg := oldstate, false, false;
      var val := GetValue(operand);
      if size == 1 {
        if !dependant {
          if val > 255 || val < -128 {
            errmsg := true;
          }
        } else {
          return false;
        }
      } else if (val < 0 || val > 0xFFFF) && !dependant {
        errmsg := true;
      }
      if errmsg && !dependant {
        return false;
      }
      if addr > 0xFFFF {
        errmsg := true;
      }
      var bytes := if size == 1 then [Low(val)] else Little(val);
      Output([form.code]);
      Output(bytes);
      assert old(output) + [form.code] + bytes == old(output) + ([form.code] + bytes);
      return true;
    }

    /** The forms are tried in table order; the first one that accepts the operand is emitted. */
    method Opcode(zp: Opcode, abs: Opcode, operand: string)
      requires Valid() && !errmsg
      modifies this
      ensures SamePass() && Now().(error := error || errmsg) == Operation(old(Now()), zp, abs, operand, lastchance)
    {
      var oldstate := needanotherpass;
      if zp.Form? {
        var done := TryForm(zp, 1, operand, oldstate);
        if done {
          return;
        }
      }
      if abs.Form? {
        var done := TryForm(abs, 2, operand, oldstate);
        if done {
          return;
        }
      }
      errmsg := true;
    }

    /** The value of a branch operand: the distance to the target, out of range only for the time being. */
    method Displacement(target: string) returns (val: int)
      requires Valid() && !errmsg
      modifies `needanotherpass, `dependant, `errmsg
      ensures var d := if target in labels then labels[target].value - (addr + 2) else 0;
        && val == d
        && needanotherpass == (old(needanotherpass) || target !in labels || !(-128 <= d <= 127))
        && errmsg == (lastchance && (target !in labels || !(-128 <= d <= 127)))
    {
      dependant := false;
      val := GetValue(target);
      if !dependant {
        val := val - (addr + 2);
        if val > 127 || val < -128 {
          needanotherpass := true;
          if lastchance {
            errmsg := true;
          }
        }
      }
    }

    method RelativeOpcode(code: byte, target: string)
      requires Valid() && !errmsg
      modifies this
      ensures SamePass() && Now().(error := error || errmsg) == Relative(old(Now()), code, target, lastchance)
    {
      var val := Displacement(target);
      if addr > 0xFFFF {
        errmsg := true;
      }
      Output([code]);
      Output([Low(val)]);
      assert old(output) + [code] + [Low(val)] == old(output) + [code, Low(val)];
    }

    method ProcessLine(item: Item)
      requires Valid()
      modifies this
      ensures SamePass() && Now() == Line(old(Now()), item, pass, lastchance)
    {
      errmsg := false;
      match item
      {
        case Label(name) => AddLabel(name);
        case Instr(zp, abs, operand) => Opcode(zp, abs, operand);
        case Branch(code, target) => RelativeOpcode(code, target);
        case Data(bytes) => Output(bytes);
      }
      if errmsg {
        error := true;
      }
    }

    method ProcessFile(prog: Program)
      requires Valid()
      modifies this
      ensures SamePass() && Now() == Lines(old(Now()), prog, pass, lastchance)
    {
      var i := 0;
      while i < |prog|
        invariant 0 <= i <= |prog| && SamePass()
        invariant Lines(Now(), prog[i..], pass, lastchance) == Lines(old(Now()), prog, pass, lastchance)
      {
        assert prog[i..][0] == prog[i] && prog[i..][1..] == prog[i + 1..];
        ProcessLine(prog[i]);
        i := i + 1;
      }
      assert prog[i..] == [];
    }

    /** The main assembly loop. */
    method Run(prog: Program, origin: int)
      requires Valid() && labels == map[] && !error && !lastchance && pass == 0
      modifies this
      ensures (Now(), pass) == Assemble(prog, origin)
      ensures origin >= 0 && !error ==> Encodes(prog, origin, Addresses(labels), output)
      ensures pass <= 3
    {
      var p := 0;
      while true
        invariant Valid() && !error && !lastchance && 0 <= pass < MAXPASSES
        invariant PassLoop(labels, prog, origin, pass + 1, p != lastlabel) == Assemble(prog, origin)
        decreases MAXPASSES - pass
      {
        pass := pass + 1;
        if pass == MAXPASSES || p == lastlabel {
          lastchance := true;
        }
        needanotherpass, addr, output := false, origin, [];
        p, startlabel := lastlabel, lastlabel;
        ProcessFile(prog);
        if error || lastchance || !needanotherpass {
          break;
        }
      }
      if origin >= 0 {
        AssembleIsCorrect(prog, origin);
      }
      ThreePassesDecide(prog, origin);
    }
  }
}
