/** Whole runs of asm6's pass loop: addresses only shrink, three passes always decide, and above
    the zero page the assembler finds an encoding whenever the program has one. */
module Asm6PassRuns {
  import opened Bytes
  import opened Asm6Passes

  // ---------------------------------------------------------------- addresses only shrink

  /** Every entry of `s` is in `t`, at no higher an address. */
  ghost predicate Below(t: Table, s: Table) {
    forall n :: n in s ==> n in t && t[n].value <= s[n].value
  }

  lemma OperationShrinks(t: State, s: State, zp: Opcode, abs: Opcode, operand: string, last: bool, last': bool)
    requires NonNegative(s) && NonNegative(t)
    requires Below(t.table, s.table) && t.addr <= s.addr
    requires !Operation(s, zp, abs, operand, last).error && !Operation(t, zp, abs, operand, last').error
    ensures Operation(t, zp, abs, operand, last').addr <= Operation(s, zp, abs, operand, last).addr
  {
    if operand !in s.table {
      assert Operation(s, zp, abs, operand, last).addr == s.addr + 3;
      assert Operation(t, zp, abs, operand, last').addr <= t.addr + 3;
    } else {
      assert t.table[operand].value <= s.table[operand].value;
    }
  }

  /** What a line does to the table and the address, apart from instructions' lengths. */
  lemma LineEffect(s: State, item: Item, pass: nat, last: bool)
    requires !Line(s, item, pass, last).error
    ensures Line(s, item, pass, last).table == if item.Label? then s.table[item.name := Entry(s.addr, pass)] else s.table
    ensures item.Label? ==> Line(s, item, pass, last).addr == s.addr
    ensures item.Data? ==> Line(s, item, pass, last).addr == s.addr + |item.bytes|
    ensures item.Branch? ==> Line(s, item, pass, last).addr == s.addr + 2
  {
  }

  lemma LineShrinks(t: State, s: State, item: Item, pass: nat, last: bool, pass': nat, last': bool)
    requires NonNegative(s) && NonNegative(t)
    requires Below(t.table, s.table) && t.addr <= s.addr
    requires !Line(s, item, pass, last).error && !Line(t, item, pass', last').error
    ensures Below(Line(t, item, pass', last').table, Line(s, item, pass, last).table)
    ensures Line(t, item, pass', last').addr <= Line(s, item, pass, last).addr
  {
    LineEffect(s, item, pass, last);
    LineEffect(t, item, pass', last');
    if item.Instr? {
      OperationShrinks(t, s, item.zp, item.abs, item.operand, last, last');
    }
  }

  /** If a pass starts from lower addresses than another and both are free of errors, it ends with lower ones. */
  lemma {:induction false} PassShrinks(t: State, s: State, prog: Program, pass: nat, last: bool, pass': nat, last': bool)
    requires NonNegative(s) && NonNegative(t)
    requires Below(t.table, s.table) && t.addr <= s.addr
    requires !Lines(s, prog, pass, last).error && !Lines(t, prog, pass', last').error
    ensures Below(Lines(t, prog, pass', last').table, Lines(s, prog, pass, last).table)
    decreases |prog|
  {
    if prog != [] {
      var s1, t1 := Line(s, prog[0], pass, last), Line(t, prog[0], pass', last');
      Sticky(s1, prog[1..], pass, last);
      Sticky(t1, prog[1..], pass', last');
      LineNonNegative(s, prog[0], pass, last);
      LineNonNegative(t, prog[0], pass', last');
      LineShrinks(t, s, prog[0], pass, last, pass', last');
      PassShrinks(t1, s1, prog[1..], pass, last, pass', last');
    }
  }

  /** The state after pass `k` of a run that gets that far. */
  function NthPass(prog: Program, origin: int, k: nat): State
    requires 1 <= k <= MAXPASSES
  {
    if k == 1 then Pass(map[], prog, origin, 1, false)
    else
      var s := NthPass(prog, origin, k - 1);
      Pass(s.table, prog, origin, k, k == MAXPASSES || !s.created)
  }

  /** Entering the loop at pass `k`, it returns the first pass from there that has an error, needs
      no other or is the last. */
  lemma {:induction false} LoopIsNthPass(table: Table, prog: Program, origin: int, k: nat, grew: bool)
    requires 1 <= k <= MAXPASSES
    requires if k == 1 then table == map[] && grew
             else table == NthPass(prog, origin, k - 1).table && grew == NthPass(prog, origin, k - 1).created
    ensures k <= PassLoop(table, prog, origin, k, grew).1 <= MAXPASSES
    ensures PassLoop(table, prog, origin, k, grew).0 == NthPass(prog, origin, PassLoop(table, prog, origin, k, grew).1)
    ensures forall i :: k <= i < PassLoop(table, prog, origin, k, grew).1
                        ==> !NthPass(prog, origin, i).error && NthPass(prog, origin, i).need
    decreases MAXPASSES - k
  {
    var s := NthPass(prog, origin, k);
    var last := k == MAXPASSES || !grew;
    if !s.error && !last && s.need {
      LoopIsNthPass(s.table, prog, origin, k + 1, s.created);
    }
  }

  /** The run that `Assemble` makes: every pass before the last is free of errors and asks for another. */
  lemma AssembleIsNthPass(prog: Program, origin: int)
    ensures var (s, m) := Assemble(prog, origin);
            1 <= m <= MAXPASSES && s == NthPass(prog, origin, m)
            && forall i :: 1 <= i < m ==> !NthPass(prog, origin, i).error && NthPass(prog, origin, i).need
  {
    LoopIsNthPass(map[], prog, origin, 1, true);
  }

  lemma {:induction false} NthPassNonNegative(prog: Program, origin: int, k: nat)
    requires 1 <= k <= MAXPASSES && origin >= 0
    ensures NonNegative(NthPass(prog, origin, k))
  {
    if k == 1 {
      StaysNonNegative(Start(map[], origin), prog, 1, false);
    } else {
      NthPassNonNegative(prog, origin, k - 1);
      var s := NthPass(prog, origin, k - 1);
      StaysNonNegative(Start(s.table, origin), prog, k, k == MAXPASSES || !s.created);
    }
  }

  /** No label's address grows from one error-free pass to the next. */
  lemma {:induction false} AddressesNeverGrow(prog: Program, origin: int, k: nat)
    requires 1 <= k < MAXPASSES && origin >= 0
    requires forall i :: 1 <= i <= k + 1 ==> !NthPass(prog, origin, i).error
    ensures Below(NthPass(prog, origin, k + 1).table, NthPass(prog, origin, k).table)
    decreases k
  {
    var s := NthPass(prog, origin, k);
    var t := NthPass(prog, origin, k + 1);
    NthPassNonNegative(prog, origin, k);
    assert !s.error && !t.error;
    var last' := k + 1 == MAXPASSES || !s.created;
    if k == 1 {
      PassShrinks(Start(s.table, origin), Start(map[], origin), prog, 1, false, 2, last');
    } else {
      var r := NthPass(prog, origin, k - 1);
      NthPassNonNegative(prog, origin, k - 1);
      AddressesNeverGrow(prog, origin, k - 1);
      PassShrinks(Start(s.table, origin), Start(r.table, origin), prog, k, k == MAXPASSES || !r.created, k + 1, last');
    }
  }

  // ---------------------------------------------------------------- three passes decide

  /** The names the program defines. */
  function Names(prog: Program): set<string> {
    set i | 0 <= i < |prog| && prog[i].Label? :: prog[i].name
  }

  lemma NamesCons(prog: Program)
    requires prog != []
    ensures Names(prog) == Defined(prog[0]) + Names(prog[1..])
  {
  }

  /** The name a line defines, if any. */
  function Defined(item: Item): set<string> {
    if item.Label? then {item.name} else {}
  }

  lemma LineDefines(s: State, item: Item, pass: nat, last: bool)
    ensures Line(s, item, pass, last).table.Keys == s.table.Keys + Defined(item)
    ensures Line(s, item, pass, last).created == (s.created || !(Defined(item) <= s.table.Keys))
  {
    match item
    case Label(_) =>
    case Data(_) =>
    case Instr(_, _, _) => assert Line(s, item, pass, last).table == s.table;
    case Branch(_, _) => assert Line(s, item, pass, last).table == s.table;
  }

  /** A pass adds exactly the program's names, and creates a label exactly if one was missing. */
  lemma {:induction false} PassDefines(s: State, prog: Program, pass: nat, last: bool)
    ensures Lines(s, prog, pass, last).table.Keys == s.table.Keys + Names(prog)
    ensures Lines(s, prog, pass, last).created == (s.created || !(Names(prog) <= s.table.Keys))
    decreases |prog|
  {
    if prog != [] {
      NamesCons(prog);
      LineDefines(s, prog[0], pass, last);
      PassDefines(Line(s, prog[0], pass, last), prog[1..], pass, last);
    }
  }

  /** All labels exist after the first pass, so the second creates none and the third is the last. */
  lemma ThreePassesDecide(prog: Program, origin: int)
    ensures Assemble(prog, origin).1 <= 3
  {
    var s := Pass(map[], prog, origin, 1, false);
    PassDefines(Start(map[], origin), prog, 1, false);
    var t := Pass(s.table, prog, origin, 2, !s.created);
    PassDefines(Start(s.table, origin), prog, 2, !s.created);
    assert !t.created;
  }

  /** In the run that `Assemble` makes, unless it ends in an error, addresses only shrink. */
  lemma RunShrinks(prog: Program, origin: int)
    requires origin >= 0 && !Assemble(prog, origin).0.error
    ensures forall i :: 1 <= i < Assemble(prog, origin).1
                        ==> Below(NthPass(prog, origin, i + 1).table, NthPass(prog, origin, i).table)
  {
    AssembleIsNthPass(prog, origin);
    var (s, m) := Assemble(prog, origin);
    forall i | 1 <= i < m ensures Below(NthPass(prog, origin, i + 1).table, NthPass(prog, origin, i).table) {
      AddressesNeverGrow(prog, origin, i);
    }
  }

  // ---------------------------------------------------------------- completeness above the zero page

  ghost predicate Distinct(prog: Program) {
    forall i, j :: 0 <= i < j < |prog| && prog[i].Label? && prog[j].Label? ==> prog[i].name != prog[j].name
  }

  /** `prog` at `origin` has the encoding `enc` with its labels at the addresses `at`. */
  ghost predicate IsAssembly(prog: Program, origin: int, at: map<string, int>, enc: seq<byte>) {
    at.Keys == Names(prog) && Distinct(prog) && Encodes(prog, origin, at, enc)
  }

  /** The table's addresses are those of `at`, and pass `pass` has not yet defined any label of `prog`. */
  ghost predicate Agrees(s: State, at: map<string, int>, prog: Program, pass: nat) {
    (forall n :: n in s.table ==> n in at && s.table[n].value == at[n])
    && forall i :: 0 <= i < |prog| && prog[i].Label? && prog[i].name in s.table ==> s.table[prog[i].name].pass != pass
  }

  lemma LittleWord(lo: byte, hi: byte)
    ensures Little(Word(lo, hi)) == [lo, hi]
  {
  }

  /** Every operand that is met before its label, none of `seen` being met so far, has its final length:
      either there is no one-byte form, or the label is above the zero page. */
  predicate Sized(prog: Program, seen: set<string>, at: map<string, int>)
    decreases |prog|
  {
    prog == [] || (SizedItem(prog[0], seen, at) && Sized(prog[1..], seen + Defined(prog[0]), at))
  }

  predicate SizedItem(item: Item, seen: set<string>, at: map<string, int>) {
    item.Instr? && item.zp.Form? && item.operand !in seen && item.operand in at ==> 0x100 <= at[item.operand]
  }

  lemma {:induction false} EnoughSeen(prog: Program, seen: set<string>, at: map<string, int>)
    requires at.Keys <= seen || forall n :: n in at ==> 0x100 <= at[n]
    ensures Sized(prog, seen, at)
    decreases |prog|
  {
    if prog != [] {
      EnoughSeen(prog[1..], seen + Defined(prog[0]), at);
    }
  }

  /** Such a line produces its encoding, or asks for another pass because of a label that is still missing. */
  lemma LineFollows(s: State, item: Item, pass: nat, last: bool, at: map<string, int>, enc: seq<byte>)
    requires !s.error && Agrees(s, at, [item], pass) && ItemEncodes(item, s.addr, at, enc)
    requires SizedItem(item, s.table.Keys, at) && (last ==> at.Keys <= s.table.Keys)
    ensures !Line(s, item, pass, last).error && Line(s, item, pass, last).addr == s.addr + |enc|
    ensures !Line(s, item, pass, last).need ==> Line(s, item, pass, last).out == s.out + enc
    ensures at.Keys <= s.table.Keys ==> Line(s, item, pass, last).need == s.need
  {
    match item
    case Label(name) => assert [item][0].name == name;
    case Data(_) =>
    case Instr(zp, abs, operand) =>
      if |enc| == 2 {
        assert operand in s.table ==> enc == [zp.code, Low(s.table[operand].value)];
      } else {
        LittleWord(enc[1], enc[2]);
        assert operand in s.table ==> enc == [abs.code] + Little(s.table[operand].value);
      }
    case Branch(code, target) =>
      var d := if enc[1] < 128 then enc[1] as int else enc[1] as int - 256;
      assert target in s.table ==> enc == [code, Low(d)];
  }

  lemma {:induction false} PassFollows(s: State, prog: Program, pass: nat, last: bool, at: map<string, int>, enc: seq<byte>)
    requires !s.error && Agrees(s, at, prog, pass) && Encodes(prog, s.addr, at, enc) && Distinct(prog)
    requires Sized(prog, s.table.Keys, at) && (last ==> at.Keys <= s.table.Keys)
    ensures var end := Lines(s, prog, pass, last);
            !end.error && (!end.need ==> end.out == s.out + enc)
            && (at.Keys <= s.table.Keys ==> end.need == s.need)
            && Agrees(end, at, [], pass)
    decreases |prog|
  {
    if prog == [] {
      assert s.out + enc == s.out;
    } else {
      var n := Size(prog[0], at);
      var t := Line(s, prog[0], pass, last);
      LineFollows(s, prog[0], pass, last, at, enc[..n]);
      LineEffect(s, prog[0], pass, last);
      LineDefines(s, prog[0], pass, last);
      FollowsOn(s, t, prog, pass, at);
      PassFollows(t, prog[1..], pass, last, at, enc[n..]);
      Sticky(t, prog[1..], pass, last);
      assert t.out == s.out + enc[..n] ==> t.out + enc[n..] == s.out + enc;
    }
  }

  lemma FollowsOn(s: State, t: State, prog: Program, pass: nat, at: map<string, int>)
    requires prog != [] && Agrees(s, at, prog, pass) && Distinct(prog)
    requires t.table == if prog[0].Label? then s.table[prog[0].name := Entry(s.addr, pass)] else s.table
    requires prog[0].Label? ==> prog[0].name in at && at[prog[0].name] == s.addr
    ensures Agrees(t, at, prog[1..], pass) && Distinct(prog[1..])
  {
  }

  /** Every entry of the table has been stamped with a pass up to `pass`. */
  ghost predicate Stamped(table: Table, pass: nat) {
    forall n :: n in table ==> table[n].pass <= pass
  }

  lemma {:induction false} PassStamps(s: State, prog: Program, pass: nat, last: bool)
    requires Stamped(s.table, pass)
    ensures Stamped(Lines(s, prog, pass, last).table, pass)
    decreases |prog|
  {
    if prog != [] {
      var t := Line(s, prog[0], pass, last);
      assert !prog[0].Label? ==> t.table == s.table;
      PassStamps(t, prog[1..], pass, last);
    }
  }

  /** The addresses of an encoding are not below its origin. */
  lemma {:induction false} AddressesFromOrigin(prog: Program, pc: int, at: map<string, int>, enc: seq<byte>)
    requires Encodes(prog, pc, at, enc)
    ensures forall n :: n in Names(prog) ==> n in at && pc <= at[n]
    decreases |prog|
  {
    if prog != [] {
      NamesCons(prog);
      var n := Size(prog[0], at);
      AddressesFromOrigin(prog[1..], pc + n, at, enc[n..]);
    }
  }

  /** A pass that starts from the addresses of an encoding keeps them and has nothing to complain about. */
  lemma FixpointPass(table: Table, prog: Program, origin: int, pass: nat, last: bool, enc: seq<byte>)
    requires IsAssembly(prog, origin, Addresses(table), enc) && pass > 0 && Stamped(table, pass - 1)
    ensures var s := Pass(table, prog, origin, pass, last);
            !s.error && !s.need && s.out == enc && Addresses(s.table) == Addresses(table)
  {
    var zero := Start(table, origin);
    assert Addresses(table).Keys == table.Keys;
    EnoughSeen(prog, table.Keys, Addresses(table));
    PassFollows(zero, prog, pass, last, Addresses(table), enc);
    PassDefines(zero, prog, pass, last);
    var s := Pass(table, prog, origin, pass, last);
    assert Addresses(s.table).Keys == s.table.Keys;
  }

  /** The first pass over a program whose early operands have their final length leaves the addresses of the
      encoding, and, if nothing was missing, the encoding itself. */
  lemma FirstPassFollows(prog: Program, origin: int, at: map<string, int>, enc: seq<byte>)
    requires IsAssembly(prog, origin, at, enc) && Sized(prog, {}, at)
    ensures var s := Pass(map[], prog, origin, 1, false);
            !s.error && (!s.need ==> s.out == enc) && Addresses(s.table) == at && Stamped(s.table, 1)
  {
    var zero := Start(map[], origin);
    assert zero.table.Keys == {};
    PassFollows(zero, prog, 1, false, at, enc);
    PassDefines(zero, prog, 1, false);
    PassStamps(zero, prog, 1, false);
    var s := Pass(map[], prog, origin, 1, false);
    assert Addresses(s.table).Keys == at.Keys;
  }

  /** A program with an encoding is assembled to it, in at most two passes, from any origin, if no operand
      that could be one byte long stands before its label while the label is in the zero page. */
  lemma CompleteWhenSized(prog: Program, origin: int, at: map<string, int>, enc: seq<byte>)
    requires IsAssembly(prog, origin, at, enc) && Sized(prog, {}, at)
    ensures var (s, m) := Assemble(prog, origin);
            !s.error && s.out == enc && Addresses(s.table) == at && m <= 2
  {
    FirstPassFollows(prog, origin, at, enc);
    var s := Pass(map[], prog, origin, 1, false);
    if s.need {
      FixpointPass(s.table, prog, origin, 2, !s.created, enc);
    }
  }

  /** In particular from an origin above the zero page. */
  lemma CompleteAboveZeroPage(prog: Program, origin: int, at: map<string, int>, enc: seq<byte>)
    requires 0x100 <= origin && IsAssembly(prog, origin, at, enc)
    ensures var (s, m) := Assemble(prog, origin);
            !s.error && s.out == enc && Addresses(s.table) == at && m <= 2
  {
    AddressesFromOrigin(prog, origin, at, enc);
    EnoughSeen(prog, {}, at);
    CompleteWhenSized(prog, origin, at, enc);
  }

  /** A pass with no error has met no label twice. */
  lemma {:induction false} ErrorFreeIsDistinct(s: State, prog: Program, pass: nat, last: bool)
    requires !Lines(s, prog, pass, last).error
    ensures Distinct(prog)
    ensures forall i :: 0 <= i < |prog| && prog[i].Label? && prog[i].name in s.table ==> s.table[prog[i].name].pass != pass
    decreases |prog|
  {
    if prog != [] {
      var t := Line(s, prog[0], pass, last);
      Sticky(t, prog[1..], pass, last);
      LineEffect(s, prog[0], pass, last);
      ErrorFreeIsDistinct(t, prog[1..], pass, last);
      assert forall i :: 0 < i < |prog| ==> prog[i] == prog[1..][i - 1];
    }
  }

  lemma {:induction false} NthPassNames(prog: Program, origin: int, k: nat)
    requires 1 <= k <= MAXPASSES
    ensures NthPass(prog, origin, k).table.Keys == Names(prog)
    ensures !NthPass(prog, origin, k).error ==> Distinct(prog)
  {
    var table := if k == 1 then map[] else NthPass(prog, origin, k - 1).table;
    var last := k > 1 && (k == MAXPASSES || !NthPass(prog, origin, k - 1).created);
    if k > 1 {
      NthPassNames(prog, origin, k - 1);
    }
    PassDefines(Start(table, origin), prog, k, last);
    if !NthPass(prog, origin, k).error {
      ErrorFreeIsDistinct(Start(table, origin), prog, k, last);
    }
  }

  /** Whatever `Assemble` accepts is an assembly of the program under the final addresses. */
  lemma AcceptsOnlyAssemblies(prog: Program, origin: int)
    requires origin >= 0 && !Assemble(prog, origin).0.error
    ensures IsAssembly(prog, origin, Addresses(Assemble(prog, origin).0.table), Assemble(prog, origin).0.out)
  {
    AssembleIsCorrect(prog, origin);
    AssembleIsNthPass(prog, origin);
    NthPassNames(prog, origin, Assemble(prog, origin).1);
    var s := Assemble(prog, origin).0;
    assert Addresses(s.table).Keys == s.table.Keys;
  }

  /** Above the zero page the assembler succeeds exactly on the programs that have an encoding. */
  lemma DecidesAboveZeroPage(prog: Program, origin: int)
    requires 0x100 <= origin
    ensures !Assemble(prog, origin).0.error <==> exists at, enc :: IsAssembly(prog, origin, at, enc)
  {
    if !Assemble(prog, origin).0.error {
      AcceptsOnlyAssemblies(prog, origin);
    }
    if at, enc :| IsAssembly(prog, origin, at, enc) {
      CompleteAboveZeroPage(prog, origin, at, enc);
    }
  }

  lemma {:induction false} NthPassStamped(prog: Program, origin: int, k: nat)
    requires 1 <= k <= MAXPASSES
    ensures Stamped(NthPass(prog, origin, k).table, k)
  {
    if k == 1 {
      PassStamps(Start(map[], origin), prog, 1, false);
    } else {
      NthPassStamped(prog, origin, k - 1);
      var r := NthPass(prog, origin, k - 1);
      PassStamps(Start(r.table, origin), prog, k, k == MAXPASSES || !r.created);
    }
  }

  /** No operand that could be one byte long stands before its label. */
  predicate NoEarlyShortForm(prog: Program, seen: set<string>)
    decreases |prog|
  {
    prog == []
    || ((prog[0].Instr? && prog[0].zp.Form? ==> prog[0].operand in seen)
        && NoEarlyShortForm(prog[1..], seen + Defined(prog[0])))
  }

  lemma {:induction false} NoEarlyIsSized(prog: Program, seen: set<string>, at: map<string, int>)
    requires NoEarlyShortForm(prog, seen)
    ensures Sized(prog, seen, at)
    decreases |prog|
  {
    if prog != [] {
      NoEarlyIsSized(prog[1..], seen + Defined(prog[0]), at);
    }
  }

  /** Without such operands the assembler succeeds exactly on the programs that have an encoding, from any origin. */
  lemma DecidesWithoutEarlyShortForms(prog: Program, origin: int)
    requires 0 <= origin && NoEarlyShortForm(prog, {})
    ensures !Assemble(prog, origin).0.error <==> exists at, enc :: IsAssembly(prog, origin, at, enc)
  {
    if !Assemble(prog, origin).0.error {
      AcceptsOnlyAssemblies(prog, origin);
    }
    if at, enc :| IsAssembly(prog, origin, at, enc) {
      NoEarlyIsSized(prog, {}, at);
      CompleteWhenSized(prog, origin, at, enc);
    }
  }

  /** From any origin the assembler succeeds exactly when its first two passes have no error and the
      second one already leaves the addresses of an encoding. */
  lemma DecidesByPassTwo(prog: Program, origin: int)
    requires origin >= 0
    ensures !Assemble(prog, origin).0.error <==>
              !NthPass(prog, origin, 1).error && !NthPass(prog, origin, 2).error
              && exists enc :: IsAssembly(prog, origin, Addresses(NthPass(prog, origin, 2).table), enc)
  {
    if !Assemble(prog, origin).0.error {
      SuccessNeedsPassTwo(prog, origin);
    } else if enc :| !NthPass(prog, origin, 1).error && !NthPass(prog, origin, 2).error
                     && IsAssembly(prog, origin, Addresses(NthPass(prog, origin, 2).table), enc) {
      AssembleIsNthPass(prog, origin);
      ThreePassesDecide(prog, origin);
      NthPassStamped(prog, origin, 2);
      var t := NthPass(prog, origin, 2);
      FixpointPass(t.table, prog, origin, 3, !t.created, enc);
      assert false;
    }
  }

  lemma SuccessNeedsPassTwo(prog: Program, origin: int)
    requires origin >= 0 && !Assemble(prog, origin).0.error
    ensures !NthPass(prog, origin, 1).error && !NthPass(prog, origin, 2).error
    ensures exists enc :: IsAssembly(prog, origin, Addresses(NthPass(prog, origin, 2).table), enc)
  {
    var (s, m) := Assemble(prog, origin);
    AssembleIsNthPass(prog, origin);
    ThreePassesDecide(prog, origin);
    AcceptsOnlyAssemblies(prog, origin);
    var r, t := NthPass(prog, origin, 1), NthPass(prog, origin, 2);
    if m == 1 {
      NthPassStamped(prog, origin, 1);
      FixpointPass(r.table, prog, origin, 2, !r.created, s.out);
    } else if m == 3 {
      PassDefines(Start(map[], origin), prog, 1, false);
      PassDefines(Start(r.table, origin), prog, 2, !r.created);
      LastPassSettles(Start(t.table, origin), prog, 3);
      NthPassNonNegative(prog, origin, 2);
      var enc := QuietPassEncodes(Start(t.table, origin), prog, 3, true);
      NthPassNames(prog, origin, 2);
      NthPassNames(prog, origin, 3);
      assert Addresses(s.table).Keys == s.table.Keys && Addresses(t.table).Keys == t.table.Keys;
      assert Addresses(s.table) == Addresses(t.table);
    }
  }

  // ---------------------------------------------------------------- passes as layouts

  /** Where one pass over the program text puts the labels, from address `pc` on, if it starts out with the
      addresses `at`. */
  function Layout(prog: Program, pc: int, at: map<string, int>): map<string, int>
    decreases |prog|
  {
    if prog == [] then at else Layout(prog[1..], pc + Size(prog[0], at), Moved(prog[0], pc, at))
  }

  function Moved(item: Item, pc: int, at: map<string, int>): map<string, int> {
    if item.Label? then at[item.name := pc] else at
  }

  /** Every line of the pass has a form that admits what is known of its operand, and code ends in memory. */
  predicate Legal(prog: Program, pc: int, at: map<string, int>)
    decreases |prog|
  {
    prog == []
    || (LegalItem(prog[0], pc, at) && Legal(prog[1..], pc + Size(prog[0], at), Moved(prog[0], pc, at)))
  }

  predicate LegalItem(item: Item, pc: int, at: map<string, int>) {
    match item
    case Label(_) => true
    case Data(_) => true
    case Branch(_, _) => pc <= 0xFFFF
    case Instr(zp, abs, operand) =>
      pc <= 0xFFFF
      && ((zp.Form? && operand in at && at[operand] <= 0xFF) || (abs.Form? && (operand in at ==> at[operand] <= 0xFFFF)))
  }

  /** Pass `pass` has not yet defined any label of `prog`. */
  ghost predicate Unmet(table: Table, prog: Program, pass: nat) {
    forall i :: 0 <= i < |prog| && prog[i].Label? && prog[i].name in table ==> table[prog[i].name].pass != pass
  }

  lemma LineIsLayout(s: State, item: Item, pass: nat)
    requires NonNegative(s) && !s.error && Unmet(s.table, [item], pass)
    ensures var t, at := Line(s, item, pass, false), Addresses(s.table);
      && (t.error <==> !LegalItem(item, s.addr, at))
      && (!t.error ==> t.addr == s.addr + Size(item, at) && Addresses(t.table) == Moved(item, s.addr, at))
  {
    match item
    case Label(name) => assert [item][0].name == name;
    case Data(_) =>
    case Branch(_, _) =>
    case Instr(_, _, _) =>
  }

  lemma UnmetOn(s: State, prog: Program, pass: nat)
    requires prog != [] && Unmet(s.table, prog, pass) && Distinct(prog) && !Line(s, prog[0], pass, false).error
    ensures Unmet(s.table, [prog[0]], pass) && Unmet(Line(s, prog[0], pass, false).table, prog[1..], pass)
    ensures Distinct(prog[1..])
  {
    LineEffect(s, prog[0], pass, false);
  }

  /** A pass other than the last fails exactly on an illegal line, and otherwise leaves the layout. */
  lemma {:induction false} PassIsLayout(s: State, prog: Program, pass: nat)
    requires NonNegative(s) && !s.error && Unmet(s.table, prog, pass) && Distinct(prog)
    ensures var end, at := Lines(s, prog, pass, false), Addresses(s.table);
      && (end.error <==> !Legal(prog, s.addr, at))
      && (!end.error ==> Addresses(end.table) == Layout(prog, s.addr, at))
    decreases |prog|
  {
    if prog != [] {
      var t := Line(s, prog[0], pass, false);
      assert Unmet(s.table, [prog[0]], pass);
      LineIsLayout(s, prog[0], pass);
      if t.error {
        Sticky(t, prog[1..], pass, false);
      } else {
        UnmetOn(s, prog, pass);
        LineNonNegative(s, prog[0], pass, false);
        PassIsLayout(t, prog[1..], pass);
      }
    }
  }

  /** The first two passes, if the program defines a label at all. */
  lemma TwoPassesAreLayouts(prog: Program, origin: int)
    requires 0 <= origin && Distinct(prog) && Names(prog) != {}
    ensures var r, t, first := NthPass(prog, origin, 1), NthPass(prog, origin, 2), Layout(prog, origin, map[]);
      && (r.error <==> !Legal(prog, origin, map[]))
      && (!r.error ==> (t.error <==> !Legal(prog, origin, first))
                       && (!t.error ==> Addresses(t.table) == Layout(prog, origin, first)))
  {
    var zero := Start(map[], origin);
    assert Addresses(zero.table) == map[];
    PassIsLayout(zero, prog, 1);
    var r := NthPass(prog, origin, 1);
    if !r.error {
      PassDefines(zero, prog, 1, false);
      NthPassStamped(prog, origin, 1);
      NthPassNonNegative(prog, origin, 1);
      PassIsLayout(Start(r.table, origin), prog, 2);
    }
  }

  lemma {:induction false} NoLabelsNoLayout(prog: Program, pc: int)
    requires Names(prog) == {}
    ensures Layout(prog, pc, map[]) == map[]
    decreases |prog|
  {
    if prog != [] {
      NamesCons(prog);
      NoLabelsNoLayout(prog[1..], pc + Size(prog[0], map[]));
    }
  }

  /** An encoding makes every line legal under its own addresses, and these are laid out again. */
  lemma {:induction false} EncodedIsFixed(prog: Program, pc: int, at: map<string, int>, enc: seq<byte>)
    requires Encodes(prog, pc, at, enc)
    ensures Legal(prog, pc, at) && Layout(prog, pc, at) == at
    decreases |prog|
  {
    if prog != [] {
      var n := Size(prog[0], at);
      assert Moved(prog[0], pc, at) == at;
      EncodedIsFixed(prog[1..], pc + n, at, enc[n..]);
    }
  }

  /** From any origin, and on the program text alone: the assembler succeeds exactly if no label is defined
      twice, every line is legal in the first layout, made without any address, and in the second, made from
      the first, and the second layout's addresses are those of an encoding. */
  lemma DecidesByLayout(prog: Program, origin: int)
    requires 0 <= origin
    ensures !Assemble(prog, origin).0.error <==>
              var first := Layout(prog, origin, map[]);
              Legal(prog, origin, map[]) && Legal(prog, origin, first)
              && exists enc :: IsAssembly(prog, origin, Layout(prog, origin, first), enc)
  {
    DecidesByPassTwo(prog, origin);
    NthPassNames(prog, origin, 1);
    if Names(prog) == {} {
      NoLabelsNoLayout(prog, origin);
      LabellessPasses(prog, origin);
    } else if Distinct(prog) {
      TwoPassesAreLayouts(prog, origin);
    }
  }

  /** A program without labels is assembled if it is only data. */
  lemma LabellessPasses(prog: Program, origin: int)
    requires 0 <= origin && Names(prog) == {}
    ensures !Assemble(prog, origin).0.error <==> exists enc :: IsAssembly(prog, origin, map[], enc)
    ensures (exists enc :: IsAssembly(prog, origin, map[], enc)) ==> Legal(prog, origin, map[])
  {
    var s := Assemble(prog, origin).0;
    if !s.error {
      AcceptsOnlyAssemblies(prog, origin);
      assert Addresses(s.table).Keys == {};
      assert Addresses(s.table) == map[];
    }
    if enc :| IsAssembly(prog, origin, map[], enc) {
      EncodedIsFixed(prog, origin, map[], enc);
      EnoughSeen(prog, {}, map[]);
      CompleteWhenSized(prog, origin, map[], enc);
    }
  }

  /** A program at address 0 whose label `y` drops into the zero page only once `x` has moved. */
  function LateShrink(): Program {
    [Instr(Form(0xA5), Form(0xAD), "x"), Instr(Form(0xA5), Form(0xAD), "y"),
     Label("x"), Data(Zeros()), Label("y"), Data([0])]
  }

  function Zeros(): (z: seq<byte>)
    ensures |z| == 250
  {
    seq(250, _ => 0)
  }

  /** In the zero page the assembler can reject a program that has an encoding: the second layout still has
      `x` and `y` an address too high. */
  lemma ValidProgramRejected()
    ensures Assemble(LateShrink(), 0).0.error
    ensures IsAssembly(LateShrink(), 0, map["x" := 4, "y" := 254], [0xA5, 4, 0xA5, 254] + Zeros() + [0])
  {
    LateShrinkRefused();
    LateShrinkEncodes();
  }

  /** The layouts put `x` at 6, 5 and 4. */
  lemma LateShrinkRefused()
    ensures Assemble(LateShrink(), 0).0.error
  {
    var first := map[]["x" := 6]["y" := 256];
    LateShrinkLayouts(LateShrink(), first, first["x" := 5]["y" := 255]);
  }

  lemma LateShrinkLayouts(prog: Program, first: map<string, int>, second: map<string, int>)
    requires prog == LateShrink()
    requires first == map[]["x" := 6]["y" := 256] && second == first["x" := 5]["y" := 255]
    ensures Assemble(prog, 0).0.error
  {
    LateShrinkLayout(prog, map[], 3, 3);
    LateShrinkLayout(prog, first, 2, 3);
    LateShrinkLayout(prog, second, 2, 2);
    LayoutsMove(prog, 0, first, second);
  }

  /** A second layout that is not its own layout is not one of an encoding. */
  lemma LayoutsMove(prog: Program, origin: int, first: map<string, int>, second: map<string, int>)
    requires 0 <= origin && Layout(prog, origin, map[]) == first && Layout(prog, origin, first) == second
    requires Layout(prog, origin, second) != second
    ensures Assemble(prog, origin).0.error
  {
    DecidesByLayout(prog, origin);
    if enc :| IsAssembly(prog, origin, second, enc) {
      EncodedIsFixed(prog, origin, second, enc);
      assert false;
    }
  }

  lemma LateShrinkLayout(prog: Program, at: map<string, int>, x: int, y: int)
    requires prog == LateShrink() && x == Size(prog[0], at) && y == Size(prog[1], at)
    ensures Layout(prog, 0, at) == at["x" := x + y]["y" := x + y + 250]
  {
    var end := at["x" := x + y]["y" := x + y + 250];
    assert prog[1..][1..] == prog[2..] && prog[2..][1..] == prog[3..] && prog[3..][1..] == prog[4..];
    assert prog[4..][1..] == prog[5..] && prog[5..][1..] == [];
    assert Layout(prog[5..], x + y + 250, end) == end;
    assert Layout(prog[4..], x + y + 250, at["x" := x + y]) == end;
    assert Layout(prog[3..], x + y, at["x" := x + y]) == end;
    assert Layout(prog[2..], x + y, at) == end;
    assert Layout(prog[1..], x, at) == end;
  }

  lemma EncodesCons(item: Item, rest: Program, pc: int, at: map<string, int>, head: seq<byte>, tail: seq<byte>)
    requires ItemEncodes(item, pc, at, head) && Encodes(rest, pc + |head|, at, tail)
    ensures Encodes([item] + rest, pc, at, head + tail)
  {
    assert ([item] + rest)[1..] == rest;
    assert (head + tail)[..|head|] == head && (head + tail)[|head|..] == tail;
  }

  lemma LateShrinkEncodes()
    ensures IsAssembly(LateShrink(), 0, map["x" := 4, "y" := 254], [0xA5, 4, 0xA5, 254] + Zeros() + [0])
  {
    var at: map<string, int> := map["x" := 4, "y" := 254];
    var p, prog := [Label("x"), Data(Zeros()), Label("y"), Data([0])], LateShrink();
    LateShrinkTail(at);
    EncodesCons(prog[1], p, 2, at, [0xA5, 254], Zeros() + [0]);
    EncodesCons(prog[0], [prog[1]] + p, 0, at, [0xA5, 4], [0xA5, 254] + (Zeros() + [0]));
    assert prog == [prog[0]] + ([prog[1]] + p);
    assert [0xA5, 4, 0xA5, 254] + Zeros() + [0] == [0xA5, 4] + ([0xA5, 254] + (Zeros() + [0]));
    assert prog[2].name == "x" && prog[4].name == "y";
    assert Names(prog) == {"x", "y"};
  }

  lemma LateShrinkTail(at: map<string, int>)
    requires at == map["x" := 4, "y" := 254]
    ensures Encodes([Label("x"), Data(Zeros()), Label("y"), Data([0])], 4, at, Zeros() + [0])
  {
    var z := Zeros() + [0];
    assert Encodes([Data([0])], 254, at, [0]);
    EncodesCons(Label("y"), [Data([0])], 254, at, [], [0]);
    EncodesCons(Data(Zeros()), [Label("y"), Data([0])], 4, at, Zeros(), [0]);
    EncodesCons(Label("x"), [Data(Zeros()), Label("y"), Data([0])], 4, at, [], z);
    assert [Label("y")] + [Data([0])] == [Label("y"), Data([0])];
    assert [Data(Zeros())] + [Label("y"), Data([0])] == [Data(Zeros()), Label("y"), Data([0])];
    assert [Label("x")] + [Data(Zeros()), Label("y"), Data([0])] == [Label("x"), Data(Zeros()), Label("y"), Data([0])];
    assert [] + [0] == [0] && [] + z == z;
  }
}
