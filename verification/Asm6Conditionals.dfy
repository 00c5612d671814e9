/** Conditional assembly in asm6 (asm6f.c): the `iflevel`/`skipline`/`ifdone` machine, and its
    agreement with the reading of IF blocks as trees. */
module Asm6Conditionals {

  const IFNESTS: nat := 32

  /** A condition's outcome: its truth, or not decided because of an unresolved name, or an error. */
  datatype Cond = True | False | Undecided | Failing

  datatype Line = If(c: Cond) | ElseIf(c: Cond) | Else | EndIf | Other(id: nat)

  /** The machine's levels, and the ordinary lines it has processed. */
  datatype Machine = Machine(level: nat, skip: seq<bool>, done: seq<bool>, out: seq<nat>, error: bool)

  predicate WellFormed(m: Machine) {
    m.level < IFNESTS && |m.skip| == IFNESTS && |m.done| == IFNESTS
  }

  /** `skipline[iflevel-1]`. Level 0 has none; the nesting limit keeps the level that an IF sets above 0. */
  predicate Outer(m: Machine)
    requires WellFormed(m) && m.level > 0
  {
    m.skip[m.level - 1]
  }

  /** The assignments that a decided condition makes at the current level. */
  function Decide(m: Machine, truth: bool): Machine
    requires WellFormed(m) && m.level > 0
  {
    var s := !truth || Outer(m);
    m.(skip := m.skip[m.level := s], done := m.done[m.level := !s])
  }

  /** An undecided condition closes its whole chain. */
  function Close(m: Machine): Machine
    requires WellFormed(m)
  {
    m.(skip := m.skip[m.level := true], done := m.done[m.level := true])
  }

  /** What the outcome of a condition does to the current level; an error is reported. */
  function Evaluated(m: Machine, c: Cond): (r: Machine)
    requires WellFormed(m) && m.level > 0
    ensures WellFormed(r)
  {
    match c
    case True => Decide(m, true)
    case False => Decide(m, false)
    case Undecided => Close(m)
    case Failing => Close(m.(error := true))
  }

  /** `_if`; beyond the nesting limit the level stays and the error counts as undecided. */
  function DoIf(m: Machine, c: Cond): (r: Machine)
    requires WellFormed(m)
    ensures WellFormed(r)
  {
    if m.level >= IFNESTS - 1 then Close(m.(error := true))
    else
      Evaluated(m.(level := m.level + 1), c)
  }

  function DoElseIf(m: Machine, c: Cond): (r: Machine)
    requires WellFormed(m)
    ensures WellFormed(r)
  {
    if m.level == 0 then m.(error := true)
    else if m.done[m.level] then m.(skip := m.skip[m.level := true], error := m.error || c == Failing)
    else Evaluated(m, c)
  }

  function DoElse(m: Machine): (r: Machine)
    requires WellFormed(m)
    ensures WellFormed(r)
  {
    if m.level == 0 then m.(error := true)
    else m.(skip := m.skip[m.level := m.done[m.level] || Outer(m)])
  }

  function DoEndIf(m: Machine): (r: Machine)
    requires WellFormed(m)
    ensures WellFormed(r)
  {
    if m.level == 0 then m.(error := true) else m.(level := m.level - 1)
  }

  /** `processline`: while lines are skipped only the conditionals are looked at. */
  function Step(m: Machine, line: Line): (r: Machine)
    requires WellFormed(m)
    ensures WellFormed(r)
  {
    match line
    case If(c) => DoIf(m, c)
    case ElseIf(c) => DoElseIf(m, c)
    case Else => DoElse(m)
    case EndIf => DoEndIf(m)
    case Other(id) => if m.skip[m.level] then m else m.(out := m.out + [id])
  }

  function Run(m: Machine, lines: seq<Line>): (r: Machine)
    requires WellFormed(m)
    ensures WellFormed(r)
    decreases |lines|
  {
    if lines == [] then m else Run(Step(m, lines[0]), lines[1..])
  }

  // ---------------------------------------------------------------- blocks as trees

  /** A block is a list of lines and IF statements; a chain is what follows an IF's first body. */
  datatype Block = Nil | Text(id: nat, rest: Block) | Branch(c: Cond, body: Block, chain: Chain, rest: Block)

  datatype Chain = End | Otherwise(body: Block) | Elif(c: Cond, body: Block, chain: Chain)

  function Flatten(b: Block): seq<Line> {
    match b
    case Nil => []
    case Text(id, rest) => [Other(id)] + Flatten(rest)
    case Branch(c, body, chain, rest) => [If(c)] + Flatten(body) + FlattenChain(chain) + Flatten(rest)
  }

  function FlattenChain(ch: Chain): seq<Line> {
    match ch
    case End => [EndIf]
    case Otherwise(body) => [Else] + Flatten(body) + [EndIf]
    case Elif(c, body, chain) => [ElseIf(c)] + Flatten(body) + FlattenChain(chain)
  }

  /** The lines a block selects: of each IF, the first branch whose condition holds, unless an
      undecided or failing condition comes first. */
  function Selected(b: Block): seq<nat> {
    match b
    case Nil => []
    case Text(id, rest) => [id] + Selected(rest)
    case Branch(c, body, chain, rest) => Choose(c, Selected(body), Remaining(chain)) + Selected(rest)
  }

  /** What the rest of a chain selects when no branch has been taken yet. */
  function Remaining(ch: Chain): seq<nat> {
    match ch
    case End => []
    case Otherwise(body) => Selected(body)
    case Elif(c, body, chain) => Choose(c, Selected(body), Remaining(chain))
  }

  function Choose(c: Cond, taken: seq<nat>, otherwise: seq<nat>): seq<nat> {
    match c
    case True => taken
    case False => otherwise
    case Undecided => []
    case Failing => []
  }

  /** Some condition of the block ends in an error; also those in skipped lines are evaluated. */
  predicate Reports(b: Block) {
    match b
    case Nil => false
    case Text(_, rest) => Reports(rest)
    case Branch(c, body, chain, rest) => c == Failing || Reports(body) || ReportsChain(chain) || Reports(rest)
  }

  predicate ReportsChain(ch: Chain) {
    match ch
    case End => false
    case Otherwise(body) => Reports(body)
    case Elif(c, body, chain) => c == Failing || Reports(body) || ReportsChain(chain)
  }

  function Max(a: nat, b: nat): nat {
    if a > b then a else b
  }

  function Depth(b: Block): nat {
    match b
    case Nil => 0
    case Text(_, rest) => Depth(rest)
    case Branch(_, body, chain, rest) => Max(1 + Max(Depth(body), DepthChain(chain)), Depth(rest))
  }

  function DepthChain(ch: Chain): nat {
    match ch
    case End => 0
    case Otherwise(body) => Depth(body)
    case Elif(_, body, chain) => Max(Depth(body), DepthChain(chain))
  }

  // ---------------------------------------------------------------- the machine follows the tree

  lemma {:induction false} RunAppend(m: Machine, a: seq<Line>, b: seq<Line>)
    requires WellFormed(m)
    ensures Run(m, a + b) == Run(Run(m, a), b)
    decreases |a|
  {
    if a == [] {
      assert a + b == b;
    } else {
      assert (a + b)[0] == a[0] && (a + b)[1..] == a[1..] + b;
      RunAppend(Step(m, a[0]), a[1..], b);
    }
  }

  lemma RunOne(m: Machine, line: Line)
    requires WellFormed(m)
    ensures Run(m, [line]) == Step(m, line)
  {
    assert [line][1..] == [];
  }

  /** `r` is at `m`'s level, with the levels up to it as in `m`, has processed `ids` more, and has reported
      an error if `reports`. */
  ghost predicate Follows(m: Machine, r: Machine, ids: seq<nat>, reports: bool) {
    WellFormed(m) && WellFormed(r) && r.level == m.level && r.error == (m.error || reports) && r.out == m.out + ids
    && r.skip[..m.level + 1] == m.skip[..m.level + 1] && r.done[..m.level + 1] == m.done[..m.level + 1]
  }

  lemma FollowsTwice(m: Machine, n: Machine, r: Machine, a: seq<nat>, b: seq<nat>, f: bool, g: bool)
    requires Follows(m, n, a, f) && Follows(n, r, b, g)
    ensures Follows(m, r, a + b, f || g)
  {
  }

  /** Nothing while lines are skipped, else `ids`. */
  function Unless(skip: bool, ids: seq<nat>): seq<nat> {
    if skip then [] else ids
  }

  lemma TextFollows(m: Machine, id: nat)
    requires WellFormed(m)
    ensures Follows(m, Run(m, [Other(id)]), Unless(m.skip[m.level], [id]), false)
  {
    RunOne(m, Other(id));
  }

  /** One step and then the rest: what is selected adds up. */
  lemma FollowsOn(m: Machine, q: Machine, r: Machine, a: seq<nat>, b: seq<nat>, f: bool, g: bool)
    requires WellFormed(m) && WellFormed(q)
    requires Follows(m, q, Unless(m.skip[m.level], a), f) && Follows(q, r, Unless(q.skip[q.level], b), g)
    ensures Follows(m, r, Unless(m.skip[m.level], a + b), f || g)
  {
    assert q.skip[m.level] == q.skip[..m.level + 1][m.level];
    FollowsTwice(m, q, r, Unless(m.skip[m.level], a), Unless(m.skip[m.level], b), f, g);
  }

  /** Running over a flattened block processes exactly the lines the block selects, or none if lines
      are being skipped, reports an error exactly if some condition ends in one, and returns to the level
      it started from. */
  lemma {:induction false} RunBlock(m: Machine, b: Block)
    requires WellFormed(m) && m.level + Depth(b) < IFNESTS
    ensures Follows(m, Run(m, Flatten(b)), Unless(m.skip[m.level], Selected(b)), Reports(b))
    decreases b, 1
  {
    match b
    case Nil =>
    case Text(id, rest) =>
      RunAppend(m, [Other(id)], Flatten(rest));
      TextFollows(m, id);
      var q := Run(m, [Other(id)]);
      RunBlock(q, rest);
      FollowsOn(m, q, Run(q, Flatten(rest)), [id], Selected(rest), false, Reports(rest));
    case Branch(c, body, chain, rest) =>
      RunBranch(m, b);
      var q := Run(m, FlattenIf(b));
      RunBlock(q, rest);
      RunAppend(m, FlattenIf(b), Flatten(rest));
      FollowsOn(m, q, Run(q, Flatten(rest)), Choose(c, Selected(body), Remaining(chain)), Selected(rest),
                ReportsIf(b), Reports(rest));
  }

  /** The IF statement at the head of a block. */
  function FlattenIf(b: Block): seq<Line>
    requires b.Branch?
  {
    [If(b.c)] + Flatten(b.body) + FlattenChain(b.chain)
  }

  predicate ReportsIf(b: Block)
    requires b.Branch?
  {
    b.c == Failing || Reports(b.body) || ReportsChain(b.chain)
  }

  lemma {:induction false} RunBranch(m: Machine, b: Block)
    requires WellFormed(m) && m.level + Depth(b) < IFNESTS && b.Branch?
    ensures Follows(m, Run(m, FlattenIf(b)), Unless(m.skip[m.level], Choose(b.c, Selected(b.body), Remaining(b.chain))),
                    ReportsIf(b))
    decreases b, 0
  {
    var c, body, chain := b.c, b.body, b.chain;
    RunAppend(m, [If(c)] + Flatten(body), FlattenChain(chain));
    RunAppend(m, [If(c)], Flatten(body));
    RunOne(m, If(c));
    var n := DoIf(m, c);
    RunBlock(n, body);
    var p := Run(n, Flatten(body));
    RunChain(p, chain);
    AfterIf(m, n, p, Run(p, FlattenChain(chain)), c, body, chain);
  }

  /** `r` is one level below `m`, with the levels up to it as in `m`, has processed `ids` more, and has
      reported an error if `reports`. */
  ghost predicate Leaves(m: Machine, r: Machine, ids: seq<nat>, reports: bool) {
    WellFormed(m) && WellFormed(r) && r.level + 1 == m.level && r.error == (m.error || reports) && r.out == m.out + ids
    && r.skip[..m.level] == m.skip[..m.level] && r.done[..m.level] == m.done[..m.level]
  }

  /** The rest of a chain processes what remains to be selected, unless a branch was taken already, a
      condition was undecided or failed, or the whole IF is being skipped; then it leaves the level. */
  lemma {:induction false} RunChain(m: Machine, ch: Chain)
    requires WellFormed(m) && 0 < m.level && m.level + DepthChain(ch) < IFNESTS
    ensures Leaves(m, Run(m, FlattenChain(ch)), Unless(m.done[m.level] || Outer(m), Remaining(ch)), ReportsChain(ch))
    decreases ch, 1
  {
    match ch
    case End => RunOne(m, EndIf);
    case Otherwise(body) =>
      RunAppend(m, [Else] + Flatten(body), [EndIf]);
      RunAppend(m, [Else], Flatten(body));
      RunOne(m, Else);
      var n := DoElse(m);
      RunBlock(n, body);
      RunOne(Run(n, Flatten(body)), EndIf);
    case Elif(c, body, chain) =>
      RunAppend(m, [ElseIf(c)] + Flatten(body), FlattenChain(chain));
      RunAppend(m, [ElseIf(c)], Flatten(body));
      RunOne(m, ElseIf(c));
      var n := DoElseIf(m, c);
      RunBlock(n, body);
      var p := Run(n, Flatten(body));
      RunChain(p, chain);
      AfterElseIf(m, n, p, Run(p, FlattenChain(chain)), c, body, chain);
  }

  lemma SamePrefix(a: seq<bool>, b: seq<bool>, n: nat)
    requires n <= |a| && n <= |b| && a[..n] == b[..n]
    ensures forall i :: 0 <= i < n ==> a[i] == b[i]
  {
    assert forall i :: 0 <= i < n ==> a[i] == a[..n][i] && b[i] == b[..n][i];
  }

  lemma AfterIf(m: Machine, n: Machine, p: Machine, q: Machine, c: Cond, body: Block, chain: Chain)
    requires WellFormed(m) && m.level + 1 < IFNESTS && n == DoIf(m, c)
    requires Follows(n, p, Unless(n.skip[n.level], Selected(body)), Reports(body))
    requires Leaves(p, q, Unless(p.done[p.level] || Outer(p), Remaining(chain)), ReportsChain(chain))
    ensures Follows(m, q, Unless(m.skip[m.level], Choose(c, Selected(body), Remaining(chain))),
                    c == Failing || Reports(body) || ReportsChain(chain))
  {
    SamePrefix(p.skip, n.skip, n.level + 1);
    SamePrefix(p.done, n.done, n.level + 1);
    SamePrefix(q.skip, p.skip, p.level);
    SamePrefix(q.done, p.done, p.level);
  }

  lemma LongerPrefix(a: seq<bool>, b: seq<bool>, n: nat)
    requires n < |a| && n < |b| && a[..n + 1] == b[..n + 1]
    ensures a[..n] == b[..n] && a[n] == b[n]
  {
    assert a[..n] == a[..n + 1][..n] && b[..n] == b[..n + 1][..n];
    assert a[n] == a[..n + 1][n] && b[n] == b[..n + 1][n];
  }

  lemma LastOfPrefix(a: seq<bool>, b: seq<bool>, n: nat)
    requires 0 < n <= |a| && n <= |b| && a[..n] == b[..n]
    ensures a[n - 1] == b[n - 1]
  {
    assert a[n - 1] == a[..n][n - 1] && b[n - 1] == b[..n][n - 1];
  }

  lemma AfterElseIf(m: Machine, n: Machine, p: Machine, q: Machine, c: Cond, body: Block, chain: Chain)
    requires WellFormed(m) && 0 < m.level && n == DoElseIf(m, c)
    requires Follows(n, p, Unless(n.skip[n.level], Selected(body)), Reports(body))
    requires Leaves(p, q, Unless(p.done[p.level] || Outer(p), Remaining(chain)), ReportsChain(chain))
    ensures Leaves(m, q, Unless(m.done[m.level] || Outer(m), Choose(c, Selected(body), Remaining(chain))),
                   c == Failing || Reports(body) || ReportsChain(chain))
  {
    LongerPrefix(p.skip, n.skip, m.level);
    LongerPrefix(p.done, n.done, m.level);
    assert n.skip[..m.level] == m.skip[..m.level] && n.done[..m.level] == m.done[..m.level];
    LastOfPrefix(p.skip, m.skip, m.level);
  }

  /** A whole source file: from level 0, where nothing is skipped, exactly the selected lines are
      processed, back at level 0, and an error is reported exactly if a condition ends in one. */
  lemma RunProgram(m: Machine, b: Block)
    requires WellFormed(m) && m.level == 0 && !m.skip[0] && Depth(b) < IFNESTS
    ensures var r := Run(m, Flatten(b));
            r.level == 0 && r.error == (m.error || Reports(b)) && r.out == m.out + Selected(b)
  {
    RunBlock(m, b);
  }

  // ---------------------------------------------------------------- what is reported, for any lines

  /** Read with `open` IFs open, the lines hold an error: a condition that ends in one, an IF within 31 others,
      or an ELSEIF, ELSE or ENDIF of an IF that is not open. */
  predicate Faulty(lines: seq<Line>, open: nat)
    decreases |lines|
  {
    if lines == [] then false
    else
      match lines[0]
      case If(c) => c == Failing || open == 31 || Faulty(lines[1..], open + 1)
      case ElseIf(c) => c == Failing || open == 0 || Faulty(lines[1..], open)
      case Else => open == 0 || Faulty(lines[1..], open)
      case EndIf => open == 0 || Faulty(lines[1..], open - 1)
      case Other(_) => Faulty(lines[1..], open)
  }

  /** Whatever the lines, an error is reported exactly if there was one before or they hold one. */
  lemma {:induction false} ReportsFaults(m: Machine, lines: seq<Line>)
    requires WellFormed(m)
    ensures Run(m, lines).error <==> m.error || Faulty(lines, m.level)
    decreases |lines|
  {
    if lines != [] {
      ReportsFaults(Step(m, lines[0]), lines[1..]);
    }
  }

  /** The IFs that are open behind the lines are counted right as long as there is no error. */
  lemma {:induction false} CountsLevels(m: Machine, lines: seq<Line>)
    requires WellFormed(m) && !Faulty(lines, m.level)
    ensures Run(m, lines).level == m.level + Opened(lines) - Closed(lines)
    decreases |lines|
  {
    if lines != [] {
      CountsLevels(Step(m, lines[0]), lines[1..]);
    }
  }

  function Opened(lines: seq<Line>): nat {
    if lines == [] then 0 else (if lines[0].If? then 1 else 0) + Opened(lines[1..])
  }

  function Closed(lines: seq<Line>): nat {
    if lines == [] then 0 else (if lines[0].EndIf? then 1 else 0) + Closed(lines[1..])
  }

  // ---------------------------------------------------------------- the machine's own form

  /** The globals of conditional assembly, updated line by line. */
  class Assembler {
    const skipline: array<bool>
    const ifdone: array<bool>
    var iflevel: nat
    var processed: seq<nat>
    var error: bool

    ghost predicate Valid()
      reads `iflevel
    {
      skipline.Length == IFNESTS && ifdone.Length == IFNESTS && skipline != ifdone && iflevel < IFNESTS
    }

    ghost function Now(): (m: Machine)
      requires Valid()
      reads this, skipline, ifdone
      ensures WellFormed(m)
    {
      Machine(iflevel, skipline[..], ifdone[..], processed, error)
    }

    constructor ()
      ensures Valid() && fresh(skipline) && fresh(ifdone)
      ensures iflevel == 0 && !skipline[0] && processed == [] && !error
    {
      skipline := new bool[IFNESTS](_ => false);
      ifdone := new bool[IFNESTS](_ => false);
      iflevel, processed, error := 0, [], false;
    }

    /** The assignments that follow the evaluation of a condition, which left an error message or not. */
    method SetLevel(c: Cond, errmsg: bool)
      requires Valid() && (iflevel > 0 || errmsg) && (c == Failing ==> errmsg)
      modifies skipline, ifdone
      ensures Now() == if c == Undecided || errmsg then Close(old(Now())) else Decide(old(Now()), c == True)
    {
      if c == Undecided || errmsg {
        ifdone[iflevel] := true;
        skipline[iflevel] := true;
      } else {
        skipline[iflevel] := c == False || skipline[iflevel - 1];
        ifdone[iflevel] := !skipline[iflevel];
      }
    }

    method If(c: Cond)
      requires Valid()
      modifies this, skipline, ifdone
      ensures Valid() && Now() == DoIf(old(Now()), c)
    {
      var errmsg := c == Failing;
      if iflevel >= IFNESTS - 1 {
        errmsg := true;
      } else {
        iflevel := iflevel + 1;
      }
      error := error || errmsg;
      SetLevel(c, errmsg);
    }

    method ElseIf(c: Cond)
      requires Valid()
      modifies this, skipline, ifdone
      ensures Valid() && Now() == DoElseIf(old(Now()), c)
    {
      if iflevel > 0 {
        error := error || c == Failing;
        if !ifdone[iflevel] {
          SetLevel(c, c == Failing);
        } else {
          skipline[iflevel] := true;
        }
      } else {
        error := true;
      }
    }

    method Else()
      requires Valid()
      modifies this, skipline
      ensures Valid() && Now() == DoElse(old(Now()))
    {
      if iflevel > 0 {
        skipline[iflevel] := ifdone[iflevel] || skipline[iflevel - 1];
      } else {
        error := true;
      }
    }

    method EndIf()
      requires Valid()
      modifies this
      ensures Valid() && Now() == DoEndIf(old(Now()))
    {
      if iflevel > 0 {
        iflevel := iflevel - 1;
      } else {
        error := true;
      }
    }

    method ProcessLine(line: Line)
      requires Valid()
      modifies this, skipline, ifdone
      ensures Valid() && Now() == Step(old(Now()), line)
    {
      match line
      case If(c) => If(c);
      case ElseIf(c) => ElseIf(c);
      case Else => Else();
      case EndIf => EndIf();
      case Other(id) =>
        if !skipline[iflevel] {
          processed := processed + [id];
        }
    }

    method ProcessFile(lines: seq<Line>)
      requires Valid()
      modifies this, skipline, ifdone
      ensures Valid() && Now() == Run(old(Now()), lines)
      ensures error <==> old(error) || Faulty(lines, old(iflevel))
    {
      ReportsFaults(Now(), lines);
      var i := 0;
      while i < |lines|
        invariant 0 <= i <= |lines| && Valid()
        invariant Run(Now(), lines[i..]) == Run(old(Now()), lines)
      {
        assert lines[i..][0] == lines[i] && lines[i..][1..] == lines[i + 1..];
        ProcessLine(lines[i]);
        i := i + 1;
      }
      assert lines[i..] == [];
    }
  }

  /** Assembling a flattened block from the start processes exactly the lines that the block selects, and
      reports an error exactly if one of its conditions ends in one. */
  method ProcessBlock(b: Block) returns (processed: seq<nat>, error: bool)
    requires Depth(b) < IFNESTS
    ensures processed == Selected(b) && error == Reports(b)
  {
    var a := new Assembler();
    RunProgram(a.Now(), b);
    a.ProcessFile(Flatten(b));
    processed, error := a.processed, a.error;
  }
}
