/** ATasm's object image (asm.c): bytes stored into a bank's memory map, occupied addresses in a bitmap,
    and the binary file of load segments written from them. */
module AtasmImage {
  import opened Bytes

  const MEMORY: int := 65536

  type Memory = m: map<int, byte> | forall a :: a in m ==> 0 <= a < MEMORY

  // ---------------------------------------------------------------- the binary file and its loader

  /** A stretch of memory. */
  datatype Segment = Segment(start: int, data: seq<byte>)

  function End(g: Segment): int {
    g.start + |g.data|
  }

  /** A word as `save_word` writes it, low byte first. */
  function SavedWord(w: int): seq<byte> {
    [Low(w), High(w)]
  }

  /** `save_block`: first address, last address, contents. */
  function Block(g: Segment): seq<byte> {
    SavedWord(g.start) + SavedWord(End(g) - 1) + g.data
  }

  function Blocks(segs: seq<Segment>): (s: seq<byte>)
    decreases |segs|
  {
    if segs == [] then [] else Block(segs[0]) + Blocks(segs[1..])
  }

  /** The contents of a segment, by address. */
  function Contents(g: Segment): map<int, byte> {
    map a {:trigger g.data[a - g.start]} | g.start <= a < End(g) :: g.data[a - g.start]
  }

  /** What is in memory after loading the segments in turn. */
  function Overlay(m: map<int, byte>, segs: seq<Segment>): map<int, byte>
    decreases |segs|
  {
    if segs == [] then m else Overlay(m + Contents(segs[0]), segs[1..])
  }

  datatype Loaded = Loaded(m: map<int, byte>) | Malformed

  /** A loader of Atari binary files: words $FFFF announce a segment and are skipped, then come the first and
      the last address and the bytes between. */
  function Load(file: seq<byte>, m: map<int, byte>): Loaded
    decreases |file|
  {
    if file == [] then Loaded(m)
    else if |file| < 2 then Malformed
    else
      var start := file[0] as int + 256 * file[1] as int;
      if start == 0xffff then Load(file[2..], m)
      else if |file| < 4 then Malformed
      else
        var n := file[2] as int + 256 * file[3] as int - start + 1;
        if n <= 0 || |file| < 4 + n then Malformed
        else Load(file[4 + n..], m + Contents(Segment(start, file[4..4 + n])))
  }

  /** The bytes of a block in numbers. */
  lemma BlockBytes(g: Segment)
    requires 0 <= g.start < End(g) <= 65536
    ensures var last := g.start + |g.data| - 1;
            Block(g) == [g.start % 256, g.start / 256, last % 256, last / 256] + g.data
  {
  }

  /** Segments the two-byte addresses can describe and that do not look like a header. */
  predicate Loadable(g: Segment) {
    0 <= g.start < 0xffff && g.data != [] && End(g) <= MEMORY
  }

  lemma LoadStep(file: seq<byte>, start: int, n: int, m: map<int, byte>)
    requires 0 < n && 4 + n <= |file| && Word(file[0], file[1]) == start != 0xffff
    requires Word(file[2], file[3]) == start + n - 1
    ensures Load(file, m) == Load(file[4 + n..], m + Contents(Segment(start, file[4..4 + n])))
  {
  }

  lemma SavedWordIsWord(w: int)
    requires 0 <= w < MEMORY
    ensures Word(SavedWord(w)[0], SavedWord(w)[1]) == w
  {
  }

  lemma LoadParts(g: Segment, first: seq<byte>, last: seq<byte>, rest: seq<byte>, m: map<int, byte>)
    requires Loadable(g) && |first| == |last| == 2
    requires Word(first[0], first[1]) == g.start && Word(last[0], last[1]) == End(g) - 1
    ensures Load(first + last + g.data + rest, m) == Load(rest, m + Contents(g))
  {
    var file := first + last + g.data + rest;
    assert file[0] == first[0] && file[1] == first[1] && file[2] == last[0] && file[3] == last[1];
    assert file[4..4 + |g.data|] == g.data && file[4 + |g.data|..] == rest;
    LoadStep(file, g.start, |g.data|, m);
    assert Segment(g.start, g.data) == g;
  }

  lemma LoadBlock(g: Segment, rest: seq<byte>, m: map<int, byte>)
    requires Loadable(g)
    ensures Load(Block(g) + rest, m) == Load(rest, m + Contents(g))
  {
    var first, last := SavedWord(g.start), SavedWord(End(g) - 1);
    SavedWordIsWord(g.start);
    SavedWordIsWord(End(g) - 1);
    LoadParts(g, first, last, rest, m);
    assert Block(g) + rest == first + last + g.data + rest;
  }

  /** Loading undoes saving, whatever the segments. */
  lemma {:induction false} LoadBlocks(segs: seq<Segment>, rest: seq<byte>, m: map<int, byte>)
    requires forall g :: g in segs ==> Loadable(g)
    ensures Load(Blocks(segs) + rest, m) == Load(rest, Overlay(m, segs))
    decreases |segs|
  {
    if segs == [] {
      assert Blocks(segs) + rest == rest;
    } else {
      assert Blocks(segs) + rest == Block(segs[0]) + (Blocks(segs[1..]) + rest);
      LoadBlock(segs[0], Blocks(segs[1..]) + rest, m);
      LoadBlocks(segs[1..], rest, m + Contents(segs[0]));
    }
  }

  // ---------------------------------------------------------------- segments as runs

  /** The segment is all of a run of occupied addresses, and the run ends before the end of memory. */
  predicate IsRun(m: Memory, g: Segment) {
    && 0 <= g.start < End(g) < MEMORY
    && (forall a :: g.start <= a < End(g) ==> a in m && m[a] == g.data[a - g.start])
    && g.start - 1 !in m && End(g) !in m
  }

  /** Some address at or above `a` is free: the run `a` lies in ends before the end of memory. */
  ghost predicate EndsBelowTop(m: Memory, a: int) {
    exists b :: a <= b < MEMORY && b !in m
  }

  /** What the file holds of a bank: everything but a run that reaches $FFFF. */
  ghost function Saved(m: Memory): Memory {
    map a | a in m && EndsBelowTop(m, a) :: m[a]
  }

  ghost predicate Ascending(segs: seq<Segment>) {
    forall i, j :: 0 <= i < j < |segs| ==> End(segs[i]) < segs[j].start
  }

  ghost predicate Covered(segs: seq<Segment>, a: int) {
    exists i :: 0 <= i < |segs| && segs[i].start <= a < End(segs[i])
  }

  /** `segs` are the runs of `m` that end below the top, in order. */
  ghost predicate AreRuns(m: Memory, segs: seq<Segment>) {
    && Ascending(segs)
    && (forall i :: 0 <= i < |segs| ==> IsRun(m, segs[i]))
    && (forall a :: a in m && EndsBelowTop(m, a) ==> Covered(segs, a))
  }

  /** The bank is saved whole exactly if $FFFF is free. */
  lemma SavedWhole(m: Memory)
    ensures Saved(m) == m <==> 0xffff !in m
  {
  }

  lemma CoveredCons(segs: seq<Segment>, a: int)
    requires segs != []
    ensures Covered(segs, a) <==> segs[0].start <= a < End(segs[0]) || Covered(segs[1..], a)
  {
  }

  /** The smallest bank that is not: a byte at $FFFF alone is written nowhere. */
  lemma TopByteIsLost(v: byte)
    ensures AreRuns(map[0xffff := v], []) && Saved(map[0xffff := v]) == map[]
  {
  }

  lemma {:induction false} OverlayLookup(m: map<int, byte>, segs: seq<Segment>, a: int)
    requires Ascending(segs)
    ensures a in Overlay(m, segs) <==> a in m || Covered(segs, a)
    ensures !Covered(segs, a) && a in m ==> Overlay(m, segs)[a] == m[a]
    ensures forall i :: 0 <= i < |segs| && segs[i].start <= a < End(segs[i]) ==>
      a in Overlay(m, segs) && Overlay(m, segs)[a] == segs[i].data[a - segs[i].start]
    decreases |segs|
  {
    if segs != [] {
      var rest := segs[1..];
      OverlayLookup(m + Contents(segs[0]), rest, a);
      CoveredCons(segs, a);
    }
  }

  lemma RunsCover(m: Memory, segs: seq<Segment>, a: int)
    requires AreRuns(m, segs)
    ensures Covered(segs, a) <==> a in Saved(m)
  {
  }

  /** Loading the runs of a bank over whatever was in memory puts exactly the saved bytes there. */
  lemma RunsLoad(before: map<int, byte>, m: Memory, segs: seq<Segment>)
    requires AreRuns(m, segs)
    ensures Overlay(before, segs) == before + Saved(m)
  {
    forall a ensures a in Overlay(before, segs) <==> a in before + Saved(m) {
      OverlayLookup(before, segs, a);
      RunsCover(m, segs, a);
    }
    forall a | a in before + Saved(m) ensures Overlay(before, segs)[a] == (before + Saved(m))[a] {
      OverlayLookup(before, segs, a);
      RunsCover(m, segs, a);
      if a in Saved(m) {
        var i :| 0 <= i < |segs| && segs[i].start <= a < End(segs[i]);
        assert IsRun(m, segs[i]);
      }
    }
  }

  /** What is in memory once the saved parts of the banks have been loaded in turn. */
  ghost function Restored(before: map<int, byte>, ms: seq<Memory>): map<int, byte>
    decreases |ms|
  {
    if ms == [] then before else Restored(before + Saved(ms[0]), ms[1..])
  }

  /** The runs of each bank, bank by bank. */
  ghost predicate AreRunsOf(ms: seq<Memory>, segs: seq<seq<Segment>>) {
    |segs| == |ms| && forall i :: 0 <= i < |ms| ==> AreRuns(ms[i], segs[i])
  }

  function BlocksOf(segs: seq<seq<Segment>>): seq<byte>
    decreases |segs|
  {
    if segs == [] then [] else Blocks(segs[0]) + BlocksOf(segs[1..])
  }

  lemma {:induction false} BanksLoad(ms: seq<Memory>, segs: seq<seq<Segment>>, before: map<int, byte>)
    requires AreRunsOf(ms, segs)
    ensures Load(BlocksOf(segs), before) == Loaded(Restored(before, ms))
    decreases |ms|
  {
    if ms != [] {
      assert AreRuns(ms[0], segs[0]);
      forall g | g in segs[0] ensures Loadable(g) {
        assert IsRun(ms[0], g);
      }
      LoadBlocks(segs[0], BlocksOf(segs[1..]), before);
      RunsLoad(before, ms[0], segs[0]);
      BanksLoad(ms[1..], segs[1..], before + Saved(ms[0]));
    }
  }

  lemma HeaderSkipped(rest: seq<byte>, before: map<int, byte>)
    ensures Load(SavedWord(0xffff) + rest, before) == Load(rest, before)
  {
    var file := SavedWord(0xffff) + rest;
    assert file[0] == 0xff && file[1] == 0xff;
    assert file[2..] == rest;
  }

  /** The file `save_binary` writes loads, and leaves the saved part of every bank in memory. */
  lemma SavedFileLoads(ms: seq<Memory>, segs: seq<seq<Segment>>, before: map<int, byte>)
    requires AreRunsOf(ms, segs)
    ensures Load(SavedWord(0xffff) + BlocksOf(segs), before) == Loaded(Restored(before, ms))
  {
    HeaderSkipped(BlocksOf(segs), before);
    BanksLoad(ms, segs, before);
  }

  lemma RunsSnoc(ms: seq<Memory>, n: nat, segs: seq<seq<Segment>>, runs: seq<Segment>)
    requires n < |ms| && AreRunsOf(ms[..n], segs) && AreRuns(ms[n], runs)
    ensures AreRunsOf(ms[..n + 1], segs + [runs])
  {
  }

  /** A single bank comes back whole exactly if its $FFFF is free. */
  lemma OneBankRoundTrip(m: Memory, segs: seq<Segment>)
    requires AreRuns(m, segs)
    ensures Load(SavedWord(0xffff) + Blocks(segs), map[]) == Loaded(m) <==> 0xffff !in m
  {
    assert BlocksOf([segs]) == Blocks(segs) + BlocksOf([]) == Blocks(segs);
    SavedFileLoads([m], [segs], map[]);
    assert Restored(map[], [m]) == map[] + Saved(m) == Saved(m);
    SavedWhole(m);
  }

  /** The runs of a bank are determined by the bank: no other list of segments passes for them. */
  lemma {:induction false} RunsAreUnique(m: Memory, s: seq<Segment>, t: seq<Segment>)
    requires AreRuns(m, s) && AreRuns(m, t)
    ensures s == t
  {
    SameRuns(m, s, t, 0);
  }

  lemma {:induction false} SameRuns(m: Memory, s: seq<Segment>, t: seq<Segment>, n: nat)
    requires AreRuns(m, s) && AreRuns(m, t)
    requires n <= |s| && n <= |t| && s[..n] == t[..n]
    ensures s == t
    decreases |s| - n
  {
    if n < |s| {
      NextRun(m, s, t, n);
      assert s[..n + 1] == t[..n + 1];
      SameRuns(m, s, t, n + 1);
    } else if n < |t| {
      NextRun(m, t, s, n);
    }
  }

  /** The next run of one list is the next run of the other. */
  lemma NextRun(m: Memory, s: seq<Segment>, t: seq<Segment>, n: nat)
    requires AreRuns(m, s) && AreRuns(m, t)
    requires n < |s| && n <= |t| && s[..n] == t[..n]
    ensures n < |t| && s[n] == t[n]
  {
    StartsAt(m, s, t, n);
    StartsAt(m, t, s, n);
    assert IsRun(m, s[n]) && IsRun(m, t[n]);
    assert End(s[n]) == End(t[n]);
    assert forall k :: 0 <= k < |s[n].data| ==> s[n].data[k] == m[s[n].start + k] == t[n].data[k];
  }

  lemma StartsAt(m: Memory, s: seq<Segment>, t: seq<Segment>, n: nat)
    requires AreRuns(m, s) && AreRuns(m, t)
    requires n < |s| && n <= |t| && s[..n] == t[..n]
    ensures n < |t| && t[n].start <= s[n].start
  {
    var a := s[n].start;
    assert IsRun(m, s[n]);
    assert EndsBelowTop(m, a) by {
      assert a <= End(s[n]) < MEMORY && End(s[n]) !in m;
    }
    assert forall j :: 0 <= j < n ==> t[j] == s[..n][j] && End(t[j]) < a;
    var i :| 0 <= i < |t| && t[i].start <= a < End(t[i]);
    assert i > n ==> t[n].start < t[i].start;
  }

  // ---------------------------------------------------------------- memory map and bitmap

  /** Bit `a` of the bitmap, the highest bit of a byte first. */
  predicate Occupied(bits: seq<byte>, a: int)
    requires |bits| == MEMORY / 8 && 0 <= a < MEMORY
  {
    IsSet(bits[a / 8], a % 8)
  }

  /** The occupied addresses below `n` with their bytes. */
  ghost function ImageBelow(mem: seq<byte>, bits: seq<byte>, n: nat): Memory
    requires |mem| == MEMORY && |bits| == MEMORY / 8 && n <= MEMORY
    decreases n
  {
    if n == 0 then map[]
    else
      var m := ImageBelow(mem, bits, n - 1);
      if Occupied(bits, n - 1) then m[n - 1 := mem[n - 1]] else m
  }

  /** The occupied addresses with their bytes. */
  ghost function Image(mem: seq<byte>, bits: seq<byte>): Memory
    requires |mem| == MEMORY && |bits| == MEMORY / 8
  {
    ImageBelow(mem, bits, |mem|)
  }

  lemma {:induction false} ImageBelowAt(mem: seq<byte>, bits: seq<byte>, n: nat)
    requires |mem| == MEMORY && |bits| == MEMORY / 8 && n <= MEMORY
    ensures forall a :: a in ImageBelow(mem, bits, n) <==> 0 <= a < n && Occupied(bits, a)
    ensures forall a :: a in ImageBelow(mem, bits, n) ==> ImageBelow(mem, bits, n)[a] == mem[a]
    decreases n
  {
    if n > 0 {
      ImageBelowAt(mem, bits, n - 1);
    }
  }

  lemma ImageAt(mem: seq<byte>, bits: seq<byte>)
    requires |mem| == MEMORY && |bits| == MEMORY / 8
    ensures forall a :: a in Image(mem, bits) <==> 0 <= a < MEMORY && Occupied(bits, a)
    ensures forall a :: a in Image(mem, bits) ==> Image(mem, bits)[a] == mem[a]
  {
    ImageBelowAt(mem, bits, |mem|);
  }

  lemma IsImage(m: Memory, mem: seq<byte>, bits: seq<byte>)
    requires |mem| == MEMORY && |bits| == MEMORY / 8
    requires forall a :: 0 <= a < MEMORY ==> (a in m <==> Occupied(bits, a))
    requires forall a :: a in m ==> m[a] == mem[a]
    ensures m == Image(mem, bits)
  {
    ImageAt(mem, bits);
    var image := Image(mem, bits);
    assert forall a :: a in m ==> a in image && m[a] == image[a];
    assert forall a :: a in image ==> a in m;
  }

  lemma OccupiedAfter(bits: seq<byte>, a: int, b: int)
    requires |bits| == MEMORY / 8 && 0 <= a < MEMORY && 0 <= b < MEMORY
    ensures Occupied(bits[a / 8 := SetBit(bits[a / 8], a % 8)], b) <==> b == a || Occupied(bits, b)
  {
    if b / 8 == a / 8 {
      SetBitBits(bits[a / 8], a % 8, b % 8);
    }
  }

  lemma ImageAfterStore(mem: seq<byte>, bits: seq<byte>, a: int, v: byte)
    requires |mem| == MEMORY && |bits| == MEMORY / 8 && 0 <= a < MEMORY
    ensures Image(mem[a := v], bits[a / 8 := SetBit(bits[a / 8], a % 8)]) == Image(mem, bits)[a := v]
  {
    var m, after := Image(mem, bits)[a := v], bits[a / 8 := SetBit(bits[a / 8], a % 8)];
    ImageAt(mem, bits);
    forall b | 0 <= b < MEMORY ensures b in m <==> Occupied(after, b) {
      OccupiedAfter(bits, a, b);
    }
    IsImage(m, mem[a := v], after);
  }

  lemma NothingOccupied(mem: seq<byte>, bits: seq<byte>)
    requires |mem| == MEMORY && |bits| == MEMORY / 8 && forall i :: 0 <= i < |bits| ==> bits[i] == 0
    ensures Image(mem, bits) == map[]
  {
    forall a | 0 <= a < MEMORY ensures !Occupied(bits, a) {
      NonzeroBits(bits[a / 8]);
    }
    IsImage(map[], mem, bits);
  }

  // ---------------------------------------------------------------- the scan of the bitmap

  /** After `walk` addresses the scan has written `segs` and is `len` addresses into a run, or in none. */
  ghost predicate Scanned(m: Memory, segs: seq<Segment>, walk: int, start: int, len: int) {
    && 0 <= walk <= MEMORY && 0 <= len <= walk
    && (len > 0 ==> start == walk - len && forall a :: start <= a < walk ==> a in m)
    && walk - len - 1 !in m
    && Ascending(segs)
    && (forall i :: 0 <= i < |segs| ==> IsRun(m, segs[i]) && End(segs[i]) < walk)
    && (len > 0 ==> forall i :: 0 <= i < |segs| ==> End(segs[i]) < start)
    && (forall a :: a in m && a < walk - len ==> Covered(segs, a))
  }

  lemma ScanOccupied(m: Memory, segs: seq<Segment>, walk: int, start: int, len: int)
    requires Scanned(m, segs, walk, start, len) && walk in m
    ensures Scanned(m, segs, walk + 1, if len == 0 then walk else start, len + 1)
  {
  }

  lemma CoveredSnoc(segs: seq<Segment>, g: Segment, a: int)
    requires Covered(segs, a) || g.start <= a < End(g)
    ensures Covered(segs + [g], a)
  {
    if Covered(segs, a) {
      var i :| 0 <= i < |segs| && segs[i].start <= a < End(segs[i]);
      assert (segs + [g])[i] == segs[i];
    } else {
      assert (segs + [g])[|segs|] == g;
    }
  }

  lemma ScanFree(m: Memory, mem: seq<byte>, segs: seq<Segment>, walk: int, start: int, len: int)
    requires Scanned(m, segs, walk, start, len) && walk < MEMORY && walk !in m
    requires |mem| == MEMORY && forall a :: a in m ==> m[a] == mem[a]
    ensures len == 0 ==> Scanned(m, segs, walk + 1, 0, 0)
    ensures len > 0 ==> Scanned(m, segs + [Segment(start, mem[start..start + len])], walk + 1, 0, 0)
  {
    if len > 0 {
      var g := Segment(start, mem[start..start + len]);
      forall a | a in m && a < walk ensures Covered(segs + [g], a) {
        CoveredSnoc(segs, g, a);
      }
    }
  }

  lemma ScanEnds(m: Memory, segs: seq<Segment>, start: int, len: int)
    requires Scanned(m, segs, MEMORY, start, len)
    ensures AreRuns(m, segs)
  {
  }

  lemma {:induction false} BlocksSnoc(segs: seq<Segment>, g: Segment)
    ensures Blocks(segs + [g]) == Blocks(segs) + Block(g)
    decreases |segs|
  {
    if segs == [] {
      assert [g][1..] == [];
    } else {
      BlocksSnoc(segs[1..], g);
      assert (segs + [g])[1..] == segs[1..] + [g];
    }
  }

  // ---------------------------------------------------------------- the byte count

  /** The number of occupied addresses in all banks. */
  function Total(ms: seq<Memory>): nat
    decreases |ms|
  {
    if ms == [] then 0 else |ms[0]| + Total(ms[1..])
  }

  lemma {:induction false} TotalAfterUpdate(ms: seq<Memory>, i: nat, m: Memory)
    requires i < |ms|
    ensures Total(ms[i := m]) == Total(ms) - |ms[i]| + |m|
    decreases |ms|
  {
    if i == 0 {
      assert ms[0 := m][1..] == ms[1..];
    } else {
      TotalAfterUpdate(ms[1..], i - 1, m);
      assert ms[i := m][1..] == ms[1..][i - 1 := m];
    }
  }

  lemma StoreCounts(m: Memory, a: int, v: byte)
    requires 0 <= a < MEMORY
    ensures |m[a := v]| == |m| + if a in m then 0 else 1
  {
  }

  lemma {:induction false} NoneOccupied(ms: seq<Memory>)
    requires forall i :: 0 <= i < |ms| ==> ms[i] == map[]
    ensures Total(ms) == 0
    decreases |ms|
  {
    if ms != [] {
      NoneOccupied(ms[1..]);
    }
  }
}
