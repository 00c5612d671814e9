/** The multi-pass core of asm6 (asm6f.c): one pass over a program as a function on the assembler's
    state, the pass loop, and what an error-free finish guarantees. */
module Asm6Passes {
  import opened Bytes

  const MAXPASSES: nat := 7

  datatype Opcode = NoForm | Form(code: byte)

  /** A source line. `Instr` is an instruction with a label operand: its one-byte-operand and its
      two-byte-operand opcode for the operand's syntax, in the order the opcode tables list them. */
  datatype Item =
    | Label(name: string)
    | Instr(zp: Opcode, abs: Opcode, operand: string)
    | Branch(code: byte, target: string)
    | Data(bytes: seq<byte>)

  type Program = seq<Item>

  /** A LABEL entry of the label table: its address and the pass that last defined it. */
  datatype Entry = Entry(value: int, pass: nat)

  type Table = map<string, Entry>

  /** The globals of one pass. `created` records whether `lastlabel` moved. */
  datatype State = State(table: Table, addr: int, need: bool, error: bool, created: bool, out: seq<byte>)

  function Start(table: Table, origin: int): State {
    State(table, origin, false, false, false, [])
  }

  /** `output` of an opcode and its operand; an address past $FFFF is an error. */
  function Emit(s: State, bytes: seq<byte>): State {
    s.(addr := s.addr + |bytes|, out := s.out + bytes, error := s.error || s.addr > 0xFFFF)
  }

  function Little(v: int): seq<byte> {
    [Low(v), High(v)]
  }

  /** A label that does not exist (yet): another pass is needed, and it is an error on the last. */
  function Missing(s: State, last: bool): State {
    s.(need := true, error := s.error || last)
  }

  /** `addlabel` for a global label. */
  function AddLabel(s: State, name: string, pass: nat, last: bool): State {
    if name !in s.table then
      s.(table := s.table[name := Entry(s.addr, pass)], created := true)
    else if s.table[name].pass == pass then
      s.(error := true)
    else
      var moved := s.table[name].value != s.addr;
      s.(table := s.table[name := Entry(s.addr, pass)], need := s.need || moved, error := s.error || (moved && last))
  }

  /** `opcode` for a label operand: the first form whose range admits the value; without a value
      only the two-byte form is tried. */
  function Operation(s: State, zp: Opcode, abs: Opcode, operand: string, last: bool): State {
    if operand !in s.table then
      if abs.Form? then Emit(Missing(s, last), [abs.code] + Little(0))
      else s.(need := s.need || zp.Form?, error := true)
    else
      var val := s.table[operand].value;
      if zp.Form? && -128 <= val <= 255 then Emit(s, [zp.code, Low(val)])
      else if abs.Form? && 0 <= val <= 0xFFFF then Emit(s, [abs.code] + Little(val))
      else s.(error := true)
  }

  /** `opcode` for relative addressing. */
  function Relative(s: State, code: byte, target: string, last: bool): State {
    if target !in s.table then Emit(Missing(s, last), [code, 0])
    else
      var d := s.table[target].value - (s.addr + 2);
      Emit(if -128 <= d <= 127 then s else Missing(s, last), [code, Low(d)])
  }

  function Line(s: State, item: Item, pass: nat, last: bool): State {
    match item
    case Label(name) => AddLabel(s, name, pass, last)
    case Instr(zp, abs, operand) => Operation(s, zp, abs, operand, last)
    case Branch(code, target) => Relative(s, code, target, last)
    case Data(bytes) => s.(addr := s.addr + |bytes|, out := s.out + bytes)
  }

  function Lines(s: State, prog: Program, pass: nat, last: bool): State
    decreases |prog|
  {
    if prog == [] then s else Lines(Line(s, prog[0], pass, last), prog[1..], pass, last)
  }

  function Pass(table: Table, prog: Program, origin: int, pass: nat, last: bool): State {
    Lines(Start(table, origin), prog, pass, last)
  }

  /** The pass loop from the start of pass `pass`; `grew` is whether the previous pass created a
      label. Returns the state after the final pass and that pass's number. */
  function PassLoop(table: Table, prog: Program, origin: int, pass: nat, grew: bool): (State, nat)
    requires 1 <= pass <= MAXPASSES
    decreases MAXPASSES - pass
  {
    var last := pass == MAXPASSES || !grew;
    var s := Pass(table, prog, origin, pass, last);
    if !s.error && !last && s.need then PassLoop(s.table, prog, origin, pass + 1, s.created) else (s, pass)
  }

  function Assemble(prog: Program, origin: int): (State, nat) {
    PassLoop(map[], prog, origin, 1, true)
  }

  // ---------------------------------------------------------------- correctness

  /** The addresses a label table records. */
  function Addresses(table: Table): map<string, int> {
    map n | n in table :: table[n].value
  }

  /** How many bytes the item takes when labels have the addresses `at`. */
  function Size(item: Item, at: map<string, int>): nat {
    match item
    case Label(_) => 0
    case Instr(zp, _, operand) => if zp.Form? && operand in at && at[operand] <= 0xFF then 2 else 3
    case Branch(_, _) => 2
    case Data(bytes) => |bytes|
  }

  /** At `pc`, and with labels at the addresses `at`, the item is encoded by `enc`: a label is defined
      where it stands, an operand is its label's address, one byte wide exactly when the instruction
      has that form and the address fits, and a branch, its displacement a signed byte, lands on its target. */
  ghost predicate ItemEncodes(item: Item, pc: int, at: map<string, int>, enc: seq<byte>) {
    |enc| == Size(item, at)
    && match item
       case Label(name) => name in at && at[name] == pc
       case Instr(zp, abs, operand) =>
         operand in at && pc <= 0xFFFF
         && (if |enc| == 2 then enc[0] == zp.code && enc[1] == at[operand]
             else abs.Form? && enc[0] == abs.code && enc[1] as int + 256 * enc[2] as int == at[operand])
       case Branch(code, target) =>
         target in at && pc <= 0xFFFF && enc[0] == code
         && pc + 2 + (if enc[1] < 128 then enc[1] as int else enc[1] as int - 256) == at[target]
       case Data(bytes) => enc == bytes
  }

  ghost predicate Encodes(prog: Program, pc: int, at: map<string, int>, enc: seq<byte>)
    decreases |prog|
  {
    if prog == [] then enc == []
    else
      var n := Size(prog[0], at);
      n <= |enc| && ItemEncodes(prog[0], pc, at, enc[..n]) && Encodes(prog[1..], pc + n, at, enc[n..])
  }

  /** Errors and the wish for another pass are never taken back within a pass. */
  lemma {:induction false} Sticky(s: State, prog: Program, pass: nat, last: bool)
    ensures s.error ==> Lines(s, prog, pass, last).error
    ensures s.need ==> Lines(s, prog, pass, last).need
    ensures s.created ==> Lines(s, prog, pass, last).created
    ensures s.table.Keys <= Lines(s, prog, pass, last).table.Keys
    decreases |prog|
  {
    if prog != [] {
      Sticky(Line(s, prog[0], pass, last), prog[1..], pass, last);
    }
  }

  /** On the last pass everything that would need another pass is an error. */
  lemma {:induction false} LastPassSettles(s: State, prog: Program, pass: nat)
    requires s.need ==> s.error
    ensures Lines(s, prog, pass, true).need ==> Lines(s, prog, pass, true).error
    decreases |prog|
  {
    if prog != [] {
      LastPassSettles(Line(s, prog[0], pass, true), prog[1..], pass);
    }
  }

  ghost predicate NonNegative(s: State) {
    s.addr >= 0 && forall n :: n in s.table ==> s.table[n].value >= 0
  }

  /** `t`'s table has every entry of `s`'s, at the same address. */
  ghost predicate Extends(t: Table, s: Table) {
    forall n :: n in s ==> n in t && t[n].value == s[n].value
  }

  lemma QuietOperation(s: State, zp: Opcode, abs: Opcode, operand: string, last: bool, at: map<string, int>) returns (bytes: seq<byte>)
    requires NonNegative(s)
    requires !Operation(s, zp, abs, operand, last).need && !Operation(s, zp, abs, operand, last).error
    requires operand in s.table ==> operand in at && at[operand] == s.table[operand].value
    ensures Operation(s, zp, abs, operand, last) == s.(addr := s.addr + |bytes|, out := s.out + bytes)
    ensures ItemEncodes(Instr(zp, abs, operand), s.addr, at, bytes)
  {
    var val := s.table[operand].value;
    bytes := if zp.Form? && val <= 255 then [zp.code, Low(val)] else [abs.code] + Little(val);
  }

  lemma QuietRelative(s: State, code: byte, target: string, last: bool, at: map<string, int>) returns (bytes: seq<byte>)
    requires !Relative(s, code, target, last).need && !Relative(s, code, target, last).error
    requires target in s.table ==> target in at && at[target] == s.table[target].value
    ensures Relative(s, code, target, last) == s.(addr := s.addr + |bytes|, out := s.out + bytes)
    ensures ItemEncodes(Branch(code, target), s.addr, at, bytes)
  {
    var d := s.table[target].value - (s.addr + 2);
    bytes := [code, Low(d)];
  }

  /** One line that raises neither flag encodes its item under any addresses that include the table's. */
  lemma QuietLine(s: State, item: Item, pass: nat, last: bool, at: map<string, int>) returns (bytes: seq<byte>)
    requires NonNegative(s)
    requires !Line(s, item, pass, last).need && !Line(s, item, pass, last).error
    requires forall n :: n in Line(s, item, pass, last).table ==> n in at && at[n] == Line(s, item, pass, last).table[n].value
    ensures Extends(Line(s, item, pass, last).table, s.table) && NonNegative(Line(s, item, pass, last))
    ensures Line(s, item, pass, last).out == s.out + bytes && Line(s, item, pass, last).addr == s.addr + |bytes|
    ensures ItemEncodes(item, s.addr, at, bytes)
  {
    match item
    case Label(_) => bytes := [];
    case Data(b) => bytes := b;
    case Instr(zp, abs, operand) => bytes := QuietOperation(s, zp, abs, operand, last, at);
    case Branch(code, target) => bytes := QuietRelative(s, code, target, last, at);
  }

  /** A pass that raises neither flag encodes the program under the very addresses it leaves in the table. */
  lemma {:induction false} QuietPassEncodes(s: State, prog: Program, pass: nat, last: bool) returns (enc: seq<byte>)
    requires NonNegative(s)
    requires !Lines(s, prog, pass, last).need && !Lines(s, prog, pass, last).error
    ensures Lines(s, prog, pass, last).out == s.out + enc
    ensures Extends(Lines(s, prog, pass, last).table, s.table)
    ensures Encodes(prog, s.addr, Addresses(Lines(s, prog, pass, last).table), enc)
    decreases |prog|
  {
    if prog == [] {
      enc := [];
    } else {
      var t := Line(s, prog[0], pass, last);
      var end := Lines(t, prog[1..], pass, last);
      Sticky(t, prog[1..], pass, last);
      LineNonNegative(s, prog[0], pass, last);
      var rest := QuietPassEncodes(t, prog[1..], pass, last);
      var bytes := QuietLine(s, prog[0], pass, last, Addresses(end.table));
      enc := bytes + rest;
      assert enc[|bytes|..] == rest && enc[..|bytes|] == bytes;
    }
  }

  /** Compiler correctness: if the pass loop ends without an error, the output is the encoding of the
      program under the addresses its labels have in that same final pass. */
  lemma AssembleIsCorrect(prog: Program, origin: int)
    requires origin >= 0
    ensures var s := Assemble(prog, origin).0;
            !s.error ==> Encodes(prog, origin, Addresses(s.table), s.out)
  {
    LoopIsCorrect(map[], prog, origin, 1, true);
  }

  lemma {:induction false} LoopIsCorrect(table: Table, prog: Program, origin: int, pass: nat, grew: bool)
    requires 1 <= pass <= MAXPASSES && NonNegative(Start(table, origin))
    ensures var s := PassLoop(table, prog, origin, pass, grew).0;
            !s.error ==> Encodes(prog, origin, Addresses(s.table), s.out)
    decreases MAXPASSES - pass
  {
    var last := pass == MAXPASSES || !grew;
    var s := Pass(table, prog, origin, pass, last);
    StaysNonNegative(Start(table, origin), prog, pass, last);
    if !s.error && !last && s.need {
      LoopIsCorrect(s.table, prog, origin, pass + 1, s.created);
    } else if !s.error {
      if last {
        LastPassSettles(Start(table, origin), prog, pass);
      }
      var enc := QuietPassEncodes(Start(table, origin), prog, pass, last);
      assert s.out == enc;
    }
  }

  lemma LineNonNegative(s: State, item: Item, pass: nat, last: bool)
    requires NonNegative(s)
    ensures NonNegative(Line(s, item, pass, last))
  {
    match item
    case Label(_) =>
    case Data(_) =>
    case Instr(_, _, _) => assert Line(s, item, pass, last).table == s.table;
    case Branch(_, _) => assert Line(s, item, pass, last).table == s.table;
  }

  lemma {:induction false} StaysNonNegative(s: State, prog: Program, pass: nat, last: bool)
    requires NonNegative(s)
    ensures NonNegative(Lines(s, prog, pass, last))
    decreases |prog|
  {
    if prog != [] {
      LineNonNegative(s, prog[0], pass, last);
      StaysNonNegative(Line(s, prog[0], pass, last), prog[1..], pass, last);
    }
  }
}
