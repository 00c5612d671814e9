/** asm6's label table (asm6f.c): an array of label pointers, sorted by name, that starts in the
    middle of its buffer and grows both ways, with labels of one name chained by scope. */
module Asm6LabelTable {
  import opened CInt
  import opened CString

  const INITLISTSIZE: nat := 128
  const LOCALCHAR: char := '@'

  datatype Kind = LABEL | VALUE | EQUATE | MACRO | RESERVED

  /** What a pass may change about a label. */
  datatype Fields = Fields(value: int, pass: nat, known: bool, kind: Kind)

  /** A label. Its name, link and scope are settled when it enters the table. */
  class Label {
    const name: string
    const link: Label?
    const scope: nat
    ghost const rest: seq<Label>
    var value: int
    var pass: nat
    var known: bool
    var kind: Kind

    function Now(): Fields
      reads this
    {
      Fields(value, pass, known, kind)
    }

    /** A LABEL entry for the address `value`; a negative one is not known yet. */
    constructor (name: string, link: Label?, scope: nat, value: int, pass: nat)
      requires link != null ==> link.Linked() && link.name == name
      ensures Now() == NewFields(value, pass)
      ensures this.name == name && this.link == link && this.scope == scope && Linked()
      ensures rest == if link == null then [] else Chain(link)
    {
      this.name, this.link, this.scope := name, link, scope;
      this.rest := if link == null then [] else [link] + link.rest;
      this.value, this.pass, known, kind := value, pass, value >= 0, LABEL;
    }

    /** `rest` lists what follows in the chain, all of it under the same name. */
    ghost predicate Linked()
      decreases |rest|
    {
      if rest == [] then link == null
      else link != null && link.name == name && rest == [link] + link.rest && link.Linked()
    }
  }

  ghost function Chain(l: Label): seq<Label> {
    [l] + l.rest
  }

  /** The labels of `chain` outside `skip` whose scope is `scope`. */
  ghost predicate Has(chain: seq<Label>, scope: nat, skip: set<Label>) {
    exists i :: 0 <= i < |chain| && chain[i] !in skip && chain[i].scope == scope
  }

  /** What is visible in `scope`: a label of that scope, or else a global one, or else nothing. */
  ghost predicate Resolves(chain: seq<Label>, scope: nat, skip: set<Label>, p: Label?) {
    if p == null then !Has(chain, scope, skip) && !Has(chain, 0, skip)
    else p in chain && p !in skip && (p.scope == scope || (p.scope == 0 && !Has(chain, scope, skip)))
  }

  /** No two labels of the chain share a scope. */
  ghost predicate ScopesDistinct(chain: seq<Label>) {
    forall i, j :: 0 <= i < j < |chain| ==> chain[i].scope != chain[j].scope
  }

  /** With distinct scopes what is visible is unique. */
  lemma ResolutionUnique(chain: seq<Label>, scope: nat, skip: set<Label>, p: Label?, q: Label?)
    requires ScopesDistinct(chain) && Resolves(chain, scope, skip, p) && Resolves(chain, scope, skip, q)
    ensures p == q
  {
  }

  // ---------------------------------------------------------------- sorted sequences of chains

  /** The heads of the chains, strictly ascending by name. */
  ghost predicate Sorted(entries: seq<Label>) {
    forall i, j :: 0 <= i < j < |entries| ==> Less(entries[i].name, entries[j].name)
  }

  /** `k` is where `name` belongs: everything before is smaller, everything from there on greater. */
  ghost predicate Separates(entries: seq<Label>, k: int, name: string) {
    0 <= k <= |entries|
    && (forall i :: 0 <= i < k ==> Less(entries[i].name, name))
    && (forall i :: k <= i < |entries| ==> Less(name, entries[i].name))
  }

  /** The table as a plain map: each name's chain. */
  ghost function View(entries: seq<Label>): map<string, seq<Label>>
    decreases |entries|
  {
    if entries == [] then map[] else View(entries[1..])[entries[0].name := Chain(entries[0])]
  }

  function Inserted(entries: seq<Label>, k: int, p: Label): seq<Label>
    requires 0 <= k <= |entries|
  {
    entries[..k] + [p] + entries[k..]
  }

  lemma LessDiffers(a: string, b: string)
    requires Less(a, b)
    ensures a != b
  {
    StrcmpZero(a, b);
  }

  lemma {:induction false} ViewAt(entries: seq<Label>, k: nat)
    requires Sorted(entries) && k < |entries|
    ensures entries[k].name in View(entries) && View(entries)[entries[k].name] == Chain(entries[k])
    decreases k
  {
    if k > 0 {
      ViewAt(entries[1..], k - 1);
      LessDiffers(entries[0].name, entries[k].name);
    }
  }

  lemma {:induction false} ViewIndex(entries: seq<Label>, n: string) returns (k: nat)
    requires n in View(entries)
    ensures k < |entries| && entries[k].name == n
    decreases |entries|
  {
    if entries[0].name == n {
      k := 0;
    } else {
      k := ViewIndex(entries[1..], n);
      k := k + 1;
    }
  }

  /** A name that belongs strictly between two entries has none. */
  lemma SeparatesAbsent(entries: seq<Label>, k: nat, name: string)
    requires Separates(entries, k, name)
    ensures name !in View(entries)
  {
    if name in View(entries) {
      var i := ViewIndex(entries, name);
      StrcmpZero(name, name);
    }
  }

  lemma InsertSorted(entries: seq<Label>, k: nat, p: Label)
    requires Sorted(entries) && Separates(entries, k, p.name)
    ensures Sorted(Inserted(entries, k, p))
  {
  }

  /** Inserting at the insertion point adds exactly one name to the map. */
  lemma {:induction false} InsertView(entries: seq<Label>, k: nat, p: Label)
    requires Sorted(entries) && Separates(entries, k, p.name)
    ensures View(Inserted(entries, k, p)) == View(entries)[p.name := Chain(p)]
    decreases k
  {
    var after := Inserted(entries, k, p);
    if k == 0 {
      assert after[1..] == entries;
    } else {
      assert after[1..] == Inserted(entries[1..], k - 1, p);
      LessDiffers(entries[0].name, p.name);
      InsertView(entries[1..], k - 1, p);
    }
  }

  /** Replacing a head by a label of the same name changes only that name's chain. */
  lemma {:induction false} ReplaceView(entries: seq<Label>, k: nat, p: Label)
    requires Sorted(entries) && k < |entries| && p.name == entries[k].name
    ensures Sorted(entries[k := p])
    ensures View(entries[k := p]) == View(entries)[p.name := Chain(p)]
    decreases k
  {
    var after := entries[k := p];
    assert forall i :: 0 <= i < |after| ==> after[i].name == entries[i].name;
    if k == 0 {
      assert after[1..] == entries[1..];
    } else {
      assert after[1..] == entries[1..][k - 1 := p];
      LessDiffers(entries[0].name, p.name);
      ReplaceView(entries[1..], k - 1, p);
    }
  }

  /** The entries ascend strictly by name and each heads a proper chain. */
  ghost predicate Good(entries: seq<Label>) {
    Sorted(entries) && forall i :: 0 <= i < |entries| ==> entries[i].Linked() && Proper(entries[i])
  }

  ghost function ChainIn(entries: seq<Label>, name: string): seq<Label>
  {
    if name in View(entries) then View(entries)[name] else []
  }

  class LabelTable {
    var list: array<Label?>
    var labelstart: int
    var labelend: int
    var labels: int
    var findcmp: int
    var findindex: int
    var scope: nat
    var nextscope: nat
    var pass: nat
    var lastchance: bool
    var needanotherpass: bool
    var errmsg: bool
    /** The labels in the slots from `labelstart` to `labelend`. */
    ghost var entries: seq<Label>
    /** All labels ever made. */
    ghost var all: set<Label>

    ghost predicate Shape()
      reads `list, `labelstart, `labelend, `labels, `entries, list
    {
      2 <= list.Length && 0 <= labelstart <= labelend < list.Length && labels == labelend - labelstart + 1
      && |entries| == labels && forall i :: 0 <= i < labels ==> list[labelstart + i] == entries[i]
    }

    ghost predicate Valid()
      reads `list, `labelstart, `labelend, `labels, `entries, `all, `scope, `nextscope, list
    {
      Shape() && Good(entries) && Covers(all, entries) && 1 <= scope < nextscope
    }

    /** The table as a plain map from names to chains. */
    ghost function Table(): map<string, seq<Label>>
      reads `entries
    {
      View(entries)
    }

    /** The last search was for `name`: its slot if it is there, or else where it would go. */
    ghost predicate Located(name: string)
      reads `labelstart, `findcmp, `findindex, `entries
    {
      var k := findindex - labelstart;
      if findcmp == 0 then 0 <= k < |entries| && entries[k].name == name else Separates(entries, k, name)
    }

    /** `initlabels` up to the reserved words: the '$' label in the middle of the buffer. */
    constructor ()
      ensures Valid() && fresh(list) && Table().Keys == {"$"} && labels == 1
    {
      var first := new Label("$", null, 0, 0, 0);
      list := new Label?[INITLISTSIZE](i => if i == INITLISTSIZE / 2 then first else null);
      labelstart, labelend, labels := INITLISTSIZE / 2, INITLISTSIZE / 2, 1;
      findcmp, findindex, scope, nextscope, pass := 0, INITLISTSIZE / 2, 1, 2, 1;
      lastchance, needanotherpass, errmsg := false, false, false;
      entries, all := [first], {first};
      new;
      assert [first][1..] == [];
      assert View([first]) == map["$" := Chain(first)];
    }

    /** `strcmp` against the `k`-th name; in a sorted table it settles everything on that name's far side. */
    method Compare(k: int, name: string) returns (c: int)
      requires Shape() && Sorted(entries) && 0 <= k < labels
      ensures c == 0 ==> entries[k].name == name
      ensures c > 0 ==> forall i :: 0 <= i <= k ==> Less(entries[i].name, name)
      ensures c < 0 ==> forall i :: k <= i < labels ==> Less(name, entries[i].name)
    {
      assert list[labelstart + k] == entries[k];
      c := Strcmp(name, list[labelstart + k].name);
      Probe(entries, k, name);
    }

    /** The binary search of `findlabel`; C's division truncates. */
    method Search(name: string)
      requires Shape() && Sorted(entries)
      modifies `findcmp, `findindex
      ensures Located(name)
    {
      var head, tail := labelstart, labelend;
      findindex := labelstart + labels / 2;
      while true
        invariant labelstart <= head <= findindex <= tail <= labelend
        invariant forall i :: 0 <= i < head - labelstart ==> Less(entries[i].name, name)
        invariant forall i :: tail - labelstart < i < labels ==> Less(name, entries[i].name)
        decreases tail - head
      {
        findcmp := Compare(findindex - labelstart, name);
        if findcmp < 0 {
          tail := findindex - 1;
          findindex := findindex - (Quotient(tail - head, 2) + 1);
        } else if findcmp > 0 {
          head := findindex + 1;
          findindex := findindex + (Quotient(tail - head, 2) + 1);
        }
        if !(findcmp != 0 && tail - head >= 0) {
          break;
        }
      }
      if findcmp < 0 {
        findindex := findindex + 1;
      }
    }

    /** The labels of `chain` that `findlabel` passes over: under names that begin with '+', those
        already defined in this pass. */
    ghost function Skipped(name: string, chain: seq<Label>): set<Label>
      reads `pass, chain`pass
    {
      if Plus(name) then set l | l in chain && l.pass == pass else {}
    }

    method FindLabel(name: string) returns (p: Label?)
      requires Shape() && Good(entries)
      modifies `findcmp, `findindex
      ensures Located(name) && (findcmp == 0 <==> name in Table())
      ensures Resolves(old(ChainIn(entries, name)), old(scope), old(Skipped(name, ChainIn(entries, name))), p)
    {
      Search(name);
      var k := findindex - labelstart;
      if findcmp != 0 {
        SeparatesAbsent(entries, k, name);
        return null;
      }
      ViewAt(entries, k);
      p := WalkChain(list[findindex]);
    }

    /** The loops at the end of `findlabel`. */
    method WalkChain(head: Label) returns (p: Label?)
      requires head.Linked()
      ensures Resolves(Chain(head), scope, Skipped(head.name, Chain(head)), p)
    {
      ghost var chain, i := Chain(head), 0;
      ghost var skip := Skipped(head.name, chain);
      var q: Label, global: Label? := head, null;
      while true
        invariant 0 <= i < |chain| && q.Linked() && Chain(q) == chain[i..]
        invariant forall j :: 0 <= j < i && chain[j] !in skip ==> chain[j].scope != scope
        invariant if global == null then forall j :: 0 <= j < i && chain[j] !in skip ==> chain[j].scope != 0
                  else global in chain && global !in skip && global.scope == 0
        decreases |chain| - i
      {
        assert q == chain[i];
        if !(head.name != "" && head.name[0] == '+') || q.pass != pass {
          if q.scope == 0 {
            global := q;
          }
          if q.scope == scope {
            return q;
          }
        }
        if q.link == null {
          break;
        }
        q, i := q.link, i + 1;
      }
      return global;
    }

    /** `growlist`: twice the buffer, with the labels in its middle, so there is room at both ends. */
    method GrowList()
      requires Shape()
      modifies `list, `labelstart, `labelend, `findindex
      ensures Shape() && fresh(list)
      ensures 0 < labelstart && labelend < list.Length - 1 && list.Length == 2 * old(list.Length)
      ensures findindex - labelstart == old(findindex - labelstart)
    {
      var maxlabels := 2 * list.Length;
      var newhead := maxlabels / 2 - labels / 2;
      var tmp := new Label?[maxlabels](_ => null);
      forall i | 0 <= i < labels {
        tmp[newhead + i] := list[labelstart + i];
      }
      findindex := findindex - labelstart + newhead;
      list := tmp;
      labelstart := newhead;
      labelend := newhead + labels - 1;
    }

    /** The loop that moves the labels from `findindex` on one slot up. */
    method MoveUp()
      requires Shape() && labelstart <= findindex <= labelend + 1 && labelend < list.Length - 1
      modifies list
      ensures forall i :: 0 <= i < findindex ==> list[i] == old(list[i])
      ensures forall i :: findindex < i <= labelend + 1 ==> list[i] == old(list[i - 1])
    {
      var start := labelend;
      while start >= findindex
        invariant findindex - 1 <= start <= labelend
        invariant forall i :: 0 <= i <= start ==> list[i] == old(list[i])
        invariant forall i :: start + 1 < i <= labelend + 1 ==> list[i] == old(list[i - 1])
      {
        list[start + 1] := list[start];
        start := start - 1;
      }
    }

    /** Make room at `findindex` and put `p` there. */
    method ShiftUp(p: Label)
      requires Shape() && labelstart <= findindex <= labelend + 1 && labelend < list.Length - 1
      modifies `labelend, `labels, `entries, list
      ensures Shape() && entries == old(Inserted(entries, findindex - labelstart, p))
    {
      ghost var k := findindex - labelstart;
      MoveUp();
      list[findindex] := p;
      labelend := labelend + 1;
      labels := labels + 1;
      entries := Inserted(entries, k, p);
      forall i | 0 <= i < labels ensures list[labelstart + i] == entries[i] {
        if i > k {
          assert list[labelstart + i] == old(list[labelstart + i - 1]);
        }
      }
    }

    /** The loop that moves the labels below `findindex` one slot down. */
    method MoveDown()
      requires Shape() && labelstart <= findindex <= labelend + 1 && 0 < labelstart
      modifies list
      ensures forall i :: findindex <= i < list.Length ==> list[i] == old(list[i])
      ensures forall i :: labelstart - 1 <= i < findindex - 1 ==> list[i] == old(list[i + 1])
    {
      var end := findindex - 1;
      var start := labelstart;
      while start <= end
        invariant labelstart <= start <= end + 1
        invariant forall i :: start <= i < list.Length ==> list[i] == old(list[i])
        invariant forall i :: labelstart - 1 <= i < start - 1 ==> list[i] == old(list[i + 1])
      {
        list[start - 1] := list[start];
        start := start + 1;
      }
    }

    /** Make room just before `findindex` and put `p` there. */
    method ShiftDown(p: Label)
      requires Shape() && labelstart <= findindex <= labelend + 1 && 0 < labelstart
      modifies `labelstart, `labels, `entries, list
      ensures Shape() && entries == old(Inserted(entries, findindex - labelstart, p))
    {
      ghost var k := findindex - labelstart;
      MoveDown();
      labelstart := labelstart - 1;
      list[findindex - 1] := p;
      labels := labels + 1;
      entries := Inserted(entries, k, p);
      forall i | 0 <= i < labels ensures list[labelstart + i] == entries[i] {
        if i < k {
          assert list[labelstart + i] == old(list[labelstart + i]);
        }
      }
    }

    /** A new entry: make sure there is room at both ends, then shift the nearer half. */
    method Insert(p: Label)
      requires Shape() && labelstart <= findindex <= labelend + 1
      modifies `list, `labelstart, `labelend, `labels, `findindex, `entries, list
      ensures Shape() && (list == old(list) || fresh(list))
      ensures entries == old(Inserted(entries, findindex - labelstart, p))
    {
      if labelstart == 0 || labelend >= list.Length - 1 {
        GrowList();
      }
      if findindex > labelstart + labels / 2 {
        ShiftUp(p);
      } else {
        ShiftDown(p);
      }
    }

    /** `newlabel` after `findlabel`: a label in front of its name's chain, or a new entry in order. */
    method NewLabel(name: string, itsscope: nat, addr: int) returns (p: Label)
      requires Shape() && Good(entries) && Covers(all, entries) && Located(name)
      requires Plus(name) || !Has(ChainIn(entries, name), itsscope, {})
      modifies `list, `labelstart, `labelend, `labels, `findindex, `entries, `all, list
      ensures Shape() && Good(entries) && Covers(all, entries) && (list == old(list) || fresh(list))
      ensures fresh(p) && p.name == name && p.scope == itsscope && p.Now() == NewFields(addr, pass)
      ensures Table() == old(Table())[name := [p] + old(ChainIn(entries, name))]
    {
      if findcmp == 0 {
        p := ExtendChain(name, itsscope, addr);
      } else {
        p := AddEntry(name, itsscope, addr);
      }
    }

    method AddEntry(name: string, itsscope: nat, addr: int) returns (p: Label)
      requires Shape() && Good(entries) && Covers(all, entries) && Located(name) && findcmp != 0
      modifies `list, `labelstart, `labelend, `labels, `findindex, `entries, `all, list
      ensures Shape() && Good(entries) && Covers(all, entries) && (list == old(list) || fresh(list))
      ensures fresh(p) && p.name == name && p.scope == itsscope && p.Now() == NewFields(addr, pass)
      ensures Table() == old(Table())[name := [p] + old(ChainIn(entries, name))]
    {
      p := new Label(name, null, itsscope, addr, pass);
      ghost var es, k := entries, findindex - labelstart;
      EntryInserted(all, es, k, p);
      Insert(p);
      all := all + {p};
    }

    /** `newlabel` for a name that exists: the label goes to the front of the chain and shares the name. */
    method ExtendChain(name: string, itsscope: nat, addr: int) returns (p: Label)
      requires Shape() && Good(entries) && Covers(all, entries) && Located(name) && findcmp == 0
      requires Plus(name) || !Has(ChainIn(entries, name), itsscope, {})
      modifies `entries, `all, list
      ensures Shape() && Good(entries) && Covers(all, entries)
      ensures fresh(p) && p.name == name && p.scope == itsscope && p.Now() == NewFields(addr, pass)
      ensures Table() == old(Table())[name := [p] + old(ChainIn(entries, name))]
    {
      ghost var es, k := entries, findindex - labelstart;
      ViewAt(es, k);
      assert list[findindex] == list[labelstart + k] == es[k];
      p := new Label(name, list[findindex], itsscope, addr, pass);
      ReplaceView(es, k, p);
      ExtendProper(es[k], p);
      ReplaceGood(all, es, k, p);
      list[findindex] := p;
      entries := es[k := p];
      all := all + {p};
      forall i | 0 <= i < labels ensures list[labelstart + i] == entries[i] {
        assert old(list[labelstart + i]) == es[i];
      }
    }

    /** What `addlabel` treats as not defined yet although it is visible: a label of a macro body
        overrides a global one that was not made by '='. */
    ghost predicate Hidden(vis: Label?, local: bool)
      reads vis
    {
      vis != null && local && vis.scope == 0 && vis.kind != VALUE
    }

    /** `addlabel`: define `word` at `addr`. `vis` is what was visible under that name. */
    method AddLabel(word: string, local: bool, addr: int) returns (labelhere: Label, ghost vis: Label?)
      requires Valid() && !errmsg
      modifies `list, `labelstart, `labelend, `labels, `findcmp, `findindex, `entries, `all, list, all
      modifies `scope, `nextscope, `needanotherpass, `errmsg
      ensures Valid() && labelhere.name == word
      ensures Resolves(old(ChainIn(entries, word)), old(scope), old(Skipped(word, ChainIn(entries, word))), vis)
      ensures if vis == null || old(Hidden(vis, local)) then
                Created(labelhere, word, local, addr, old(Table()), old(ChainIn(entries, word)))
                && fresh(labelhere) && !errmsg && needanotherpass == old(needanotherpass)
              else
                labelhere == vis && Table() == old(Table())
      ensures forall l :: l in old(all) && l != labelhere ==> l.Now() == old(l.Now())
      ensures scope == if OpensScope(word, local) then old(nextscope) else old(scope)
      // The same on the fields alone. A new label is made unless one is visible; a global one that is not a
      // VALUE does not count in a macro body.
      ensures labelhere == vis <==> vis != null && (!local || vis.scope != 0 || old(vis.kind) == VALUE)
      ensures labelhere != vis ==>
                labelhere.value == addr && labelhere.pass == pass && (labelhere.known <==> 0 <= addr)
                && labelhere.kind == LABEL && labelhere.scope == (if local || StartsWith(word, '@') then scope else 0)
      // Met a second time in this pass.
      ensures labelhere == vis && old(vis.pass) == pass && !StartsWith(word, '-') ==>
                errmsg == (old(vis.kind) != VALUE) && needanotherpass == old(needanotherpass)
                && vis.Now() == old(vis.Now())
      // An address met for the first time in this pass.
      ensures labelhere == vis && old(vis.pass) != pass && old(vis.kind) == LABEL && !StartsWith(word, '-') ==>
                needanotherpass == (old(needanotherpass) || old(vis.value) != addr)
                && errmsg == (lastchance && (old(vis.value) != addr || addr < 0))
      ensures labelhere == vis && old(vis.pass) != pass && old(vis.kind) == LABEL && old(vis.value) == addr >= 0 ==>
                needanotherpass == old(needanotherpass) && !errmsg
      // A `-` label may be anywhere, as long as it has an address in the end.
      ensures labelhere == vis && old(vis.kind) == LABEL && StartsWith(word, '-') ==>
                needanotherpass == old(needanotherpass) && errmsg == (lastchance && addr < 0)
      ensures labelhere == vis && old(vis.kind) == LABEL && (old(vis.pass) != pass || StartsWith(word, '-')) ==>
                vis.value == addr && vis.pass == pass && (vis.known <==> 0 <= addr) && vis.kind == LABEL
      // What is not an address.
      ensures labelhere == vis && old(vis.kind) != LABEL && (old(vis.pass) != pass || StartsWith(word, '-')) ==>
                needanotherpass == old(needanotherpass) && !errmsg
                && vis.Now() == Fields(old(vis.value), pass, old(vis.known), old(vis.kind))
      ensures scope == if local || StartsWith(word, '@') || StartsWith(word, '+') || StartsWith(word, '-')
                       then old(scope) else old(nextscope)
    {
      var p: Label?;
      p, vis := Existing(word, local);
      if OpensScope(word, local) {
        scope := nextscope;
        nextscope := nextscope + 1;
      }
      labelhere := Define(word, local, addr, p);
    }

    /** A label that was not there before, in front of its chain, and the map with it. */
    ghost predicate Created(l: Label, word: string, local: bool, addr: int, table: map<string, seq<Label>>, chain: seq<Label>)
      reads `scope, `pass, `entries, l
    {
      && Table() == table[word := [l] + chain] && l.Now() == NewFields(addr, pass)
      && l.scope == if StartsWith(word, LOCALCHAR) || local then scope else 0
    }

    /** The two branches of `addlabel`. */
    method Define(word: string, local: bool, addr: int, p: Label?) returns (labelhere: Label)
      requires Valid() && !errmsg && Located(word) && (p != null ==> p in all && p.name == word)
      requires p == null ==>
                 Plus(word) || !Has(ChainIn(entries, word), if StartsWith(word, LOCALCHAR) || local then scope else 0, {})
      modifies `list, `labelstart, `labelend, `labels, `findindex, `entries, `all, list
      modifies if p == null then {} else {p}, `needanotherpass, `errmsg
      ensures Valid() && labelhere.name == word
      ensures if p == null then
                Created(labelhere, word, local, addr, old(Table()), old(ChainIn(entries, word)))
                && fresh(labelhere) && !errmsg && needanotherpass == old(needanotherpass)
              else
                labelhere == p && Table() == old(Table())
                && p.Now() == Redefined(old(p.Now()), pass, Once(word), addr)
                && errmsg == Clashes(old(p.Now()), pass, Once(word), addr, lastchance)
                && needanotherpass == (old(needanotherpass) || HasMoved(old(p.Now()), pass, Once(word), addr))
    {
      if p == null {
        labelhere := NewLabel(word, if StartsWith(word, LOCALCHAR) || local then scope else 0, addr);
      } else {
        labelhere := p;
        Redefine(p, Once(word), addr);
      }
    }

    /** The search at the start of `addlabel`. */
    method Existing(word: string, local: bool) returns (p: Label?, ghost vis: Label?)
      requires Valid()
      modifies `findcmp, `findindex
      ensures Located(word)
      ensures Resolves(old(ChainIn(entries, word)), old(scope), old(Skipped(word, ChainIn(entries, word))), vis)
      ensures p == if old(Hidden(vis, local)) then null else vis
      ensures p == null ==>
                Plus(word) || !Has(ChainIn(entries, word), if StartsWith(word, LOCALCHAR) || local then scope else 0, {})
      ensures p != null ==> p in all && p.name == word
    {
      p := FindLabel(word);
      vis := p;
      if p != null {
        ghost var k := ChainNames(entries, word, p);
        assert p in Chain(entries[k]);
        if local && p.scope == 0 && p.kind != VALUE {
          p := null;
        }
      }
    }

    /** A label that is already known: an error if it was defined in this pass, else its new address. */
    method Redefine(p: Label, once: bool, addr: int)
      modifies p, `needanotherpass, `errmsg
      ensures p.Now() == Redefined(old(p.Now()), pass, once, addr)
      ensures errmsg == (old(errmsg) || Clashes(old(p.Now()), pass, once, addr, lastchance))
      ensures needanotherpass == (old(needanotherpass) || HasMoved(old(p.Now()), pass, once, addr))
      ensures old(p.pass) != pass && old(p.kind) == LABEL && once ==>
                needanotherpass == (old(needanotherpass) || old(p.value) != addr)
                && errmsg == (old(errmsg) || (lastchance && (old(p.value) != addr || addr < 0)))
      ensures old(p.pass) != pass && old(p.kind) == LABEL && old(p.value) == addr >= 0 ==>
                needanotherpass == old(needanotherpass) && errmsg == old(errmsg)
      ensures old(p.pass) == pass && once ==>
                needanotherpass == old(needanotherpass) && errmsg == (old(errmsg) || old(p.kind) != VALUE)
    {
      if p.pass == pass && once {
        if p.kind == VALUE {
          return;
        }
        errmsg := true;
      } else {
        p.pass := pass;
        if p.kind == LABEL {
          if p.value != addr && once {
            needanotherpass := true;
            if lastchance {
              errmsg := true;
            }
          }
          p.value := addr;
          p.known := addr >= 0;
          if lastchance && addr < 0 {
            errmsg := true;
          }
        }
      }
    }

    /** The start of a pass. */
    method StartPass()
      requires Valid()
      modifies `scope, `nextscope, `pass, `needanotherpass
      ensures Valid() && scope == 1 && pass == old(pass) + 1
    {
      pass, needanotherpass, scope, nextscope := pass + 1, false, 1, 2;
    }

    /** Entering a macro or REPT body: its labels get a scope of their own. */
    method EnterBody() returns (oldscope: nat)
      requires Valid()
      modifies `scope, `nextscope
      ensures Valid() && oldscope == old(scope) && scope == old(nextscope) && oldscope < nextscope
    {
      oldscope := scope;
      scope := nextscope;
      nextscope := nextscope + 1;
    }

    method LeaveBody(oldscope: nat)
      requires Valid() && 1 <= oldscope < nextscope
      modifies `scope
      ensures Valid() && scope == oldscope
    {
      scope := oldscope;
    }
  }

  predicate StartsWith(word: string, c: char) {
    word != "" && word[0] == c
  }

  /** All names but those of `-` labels are defined once in a pass. */
  predicate Once(word: string) {
    !StartsWith(word, '-')
  }

  /** An ordinary global label opens a new scope. */
  predicate OpensScope(word: string, local: bool) {
    !StartsWith(word, LOCALCHAR) && !local && !StartsWith(word, '+') && !StartsWith(word, '-')
  }

  /** A label made for the address `addr` in pass `pass`. */
  function NewFields(addr: int, pass: nat): Fields {
    Fields(addr, pass, addr >= 0, LABEL)
  }

  /** The label was already met in pass `pass`; one of the `-` labels may be met again and again. */
  predicate Met(f: Fields, pass: nat, once: bool) {
    f.pass == pass && once
  }

  /** What meeting a known label at `addr` makes of it. */
  function Redefined(f: Fields, pass: nat, once: bool, addr: int): Fields {
    if Met(f, pass, once) then f
    else if f.kind == LABEL then f.(pass := pass, value := addr, known := addr >= 0)
    else f.(pass := pass)
  }

  /** The label has moved since the last pass. */
  predicate HasMoved(f: Fields, pass: nat, once: bool, addr: int) {
    !Met(f, pass, once) && f.kind == LABEL && f.value != addr && once
  }

  /** Meeting the label is an error: it is defined twice, or on the last pass it moved or has no address. */
  predicate Clashes(f: Fields, pass: nat, once: bool, addr: int, lastchance: bool) {
    if Met(f, pass, once) then f.kind != VALUE
    else f.kind == LABEL && lastchance && (HasMoved(f, pass, once, addr) || addr < 0)
  }

  /** A label is met at the address it has, in this pass, unless that is an error. An address met for the first
      time in a pass asks for another one exactly if it is not the old one, and is an error exactly on the last
      pass, if it is not the old one or not known; what is not an address raises neither flag. */
  lemma MeetingSettles(f: Fields, pass: nat, once: bool, addr: int, lastchance: bool)
    ensures f.kind == LABEL && !Clashes(f, pass, once, addr, lastchance) ==>
              Redefined(f, pass, once, addr) == Fields(addr, pass, addr >= 0, LABEL)
    ensures f.kind == LABEL && f.pass != pass && once ==>
              (HasMoved(f, pass, once, addr) <==> f.value != addr)
              && (Clashes(f, pass, once, addr, lastchance) <==> lastchance && (f.value != addr || addr < 0))
    ensures f.pass == pass && once ==>
              !HasMoved(f, pass, once, addr) && (Clashes(f, pass, once, addr, lastchance) <==> f.kind != VALUE)
    ensures !once || f.kind != LABEL ==> !HasMoved(f, pass, once, addr)
    ensures !once ==> (Clashes(f, pass, once, addr, lastchance) <==> f.kind == LABEL && lastchance && addr < 0)
  {
  }

  /** `all` includes every label of every chain. */
  ghost predicate Covers(all: set<Label>, entries: seq<Label>) {
    forall i :: 0 <= i < |entries| ==> forall l :: l in Chain(entries[i]) ==> l in all
  }

  /** Every label in a name's chain has that name. */
  lemma ChainNames(entries: seq<Label>, n: string, l: Label) returns (k: nat)
    requires Sorted(entries) && (forall i :: 0 <= i < |entries| ==> entries[i].Linked())
    requires n in View(entries) && l in View(entries)[n]
    ensures l.name == n && k < |entries| && l in Chain(entries[k])
  {
    k := ViewIndex(entries, n);
    ViewAt(entries, k);
    RestNames(entries[k], l);
  }

  lemma {:induction false} RestNames(head: Label, l: Label)
    requires head.Linked() && l in Chain(head)
    ensures l.name == head.name
    decreases |head.rest|
  {
    if l != head {
      assert Chain(head)[1..] == Chain(head.link);
      RestNames(head.link, l);
    }
  }

  lemma InsertGood(entries: seq<Label>, k: nat, p: Label)
    requires Good(entries) && Separates(entries, k, p.name) && p.Linked() && Proper(p)
    ensures Good(Inserted(entries, k, p))
  {
    InsertSorted(entries, k, p);
  }

  /** A lone label of a new name, inserted where it belongs. */
  lemma EntryInserted(all: set<Label>, entries: seq<Label>, k: nat, p: Label)
    requires Good(entries) && Covers(all, entries) && Separates(entries, k, p.name)
    requires p.Linked() && p.rest == []
    ensures Good(Inserted(entries, k, p)) && Covers(all + {p}, Inserted(entries, k, p))
    ensures View(Inserted(entries, k, p)) == View(entries)[p.name := [p] + ChainIn(entries, p.name)]
  {
    assert [p] + [] == [p];
    SeparatesAbsent(entries, k, p.name);
    InsertView(entries, k, p);
    InsertGood(entries, k, p);
    InsertCovers(all, entries, k, p);
  }

  lemma InsertCovers(all: set<Label>, entries: seq<Label>, k: nat, p: Label)
    requires Covers(all, entries) && k <= |entries| && Chain(p) == [p]
    ensures Covers(all + {p}, Inserted(entries, k, p))
  {
  }

  lemma ReplaceGood(all: set<Label>, entries: seq<Label>, k: nat, p: Label)
    requires Good(entries) && Covers(all, entries) && k < |entries| && p.name == entries[k].name
    requires p.Linked() && Proper(p) && p.rest == Chain(entries[k])
    ensures Good(entries[k := p]) && Covers(all + {p}, entries[k := p])
  {
  }

  /** A label whose scope is new to the chain keeps the chain proper. */
  lemma ExtendProper(head: Label, p: Label)
    requires Proper(head) && p.name == head.name && p.rest == Chain(head)
    requires Plus(p.name) || !Has(Chain(head), p.scope, {})
    ensures Proper(p)
  {
  }

  /** Comparing with one entry settles the order of everything on its far side. */
  lemma Probe(entries: seq<Label>, k: nat, name: string)
    requires Sorted(entries) && k < |entries|
    ensures Strcmp(name, entries[k].name) == 0 ==> entries[k].name == name
    ensures Strcmp(name, entries[k].name) > 0 ==> forall i :: 0 <= i <= k ==> Less(entries[i].name, name)
    ensures Strcmp(name, entries[k].name) < 0 ==> forall i :: k <= i < |entries| ==> Less(name, entries[i].name)
  {
    StrcmpZero(name, entries[k].name);
    StrcmpFlips(name, entries[k].name);
    forall i | 0 <= i < k && Less(entries[k].name, name) ensures Less(entries[i].name, name) {
      LessTransitive(entries[i].name, entries[k].name, name);
    }
    forall i | k < i < |entries| && Less(name, entries[k].name) ensures Less(name, entries[i].name) {
      LessTransitive(name, entries[k].name, entries[i].name);
    }
  }

  ghost predicate Plus(name: string) {
    name != "" && name[0] == '+'
  }

  ghost predicate Proper(l: Label) {
    Plus(l.name) || ScopesDistinct(Chain(l))
  }
}
