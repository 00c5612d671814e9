/** ATasm's Atari DOS 2 disk images (dimage.c): the free-sector bitmap with its counters, the writing
    of a file as a chain of linked sectors, and the walk that deletes a chain, as functions on the
    image, the VTOC buffer and the sector buffer. */
module AtasmDisk {
  import opened CInt
  import opened Bytes

  const SS_SD: nat := 720
  const SS_ED: nat := 1040
  const SECSIZE: nat := 128
  const LNK: nat := 125
  const VTOC_SECTOR: nat := 360
  const VTOC_SECTOR2: nat := 1024

  type Sector = s: seq<byte> | |s| == 128 witness seq(128, _ => 0)

  /** An open image: its sectors, numbered from 1, and the two buffers. */
  datatype Disk = Disk(size: nat, sectors: seq<Sector>, vtoc: seq<byte>, buf: Sector)

  /** What `get_new_disk` establishes: single or enhanced density, and buffers of their sizes. */
  predicate Formed(d: Disk) {
    (d.size == SS_SD || d.size == SS_ED) && |d.sectors| == d.size && |d.vtoc| == 256
  }

  // ---------------------------------------------------------------- sectors

  predicate OnDisk(d: Disk, nr: int) {
    1 <= nr <= d.size
  }

  function At(d: Disk, nr: int): Sector
    requires Formed(d) && OnDisk(d, nr)
  {
    d.sectors[nr - 1]
  }

  /** `readsec`: a sector off the disk leaves the buffer alone. */
  function ReadSec(d: Disk, nr: int): Disk
    requires Formed(d)
  {
    if OnDisk(d, nr) then d.(buf := At(d, nr)) else d
  }

  function WriteSec(d: Disk, nr: int): Disk
    requires Formed(d)
  {
    if OnDisk(d, nr) then d.(sectors := d.sectors[nr - 1 := d.buf]) else d
  }

  /** The link in a sector's last bytes: two bits and a byte. */
  function Link(s: Sector): nat {
    s[LNK + 1] + (s[LNK] % 4) as int * 256
  }

  // ---------------------------------------------------------------- the free-sector bitmap

  /** One past the last bitmap byte. */
  function BitmapEnd(size: nat): nat {
    if size == SS_ED then 138 else 100
  }

  /** One past the last sector the bitmap covers. */
  function Limit(size: nat): nat {
    8 * (BitmapEnd(size) - 10)
  }

  predicate IsFree(vtoc: seq<byte>, nr: nat)
    requires |vtoc| == 256 && nr < 1968
  {
    IsSet(vtoc[10 + nr / 8], nr % 8)
  }

  function FirstNonzero(vtoc: seq<byte>, x: nat, end: nat): (r: nat)
    requires x <= end < |vtoc|
    ensures x <= r <= end && (r < end ==> vtoc[r] != 0) && forall i :: x <= i < r ==> vtoc[i] == 0
    decreases end - x
  {
    if x == end || vtoc[x] != 0 then x else FirstNonzero(vtoc, x + 1, end)
  }

  /** The chain of tests at the end of `find_free_sec`; 0x80 is the case that is left over. */
  function PickBit(y: byte): (k: nat)
    ensures k < 8
  {
    if IsSet(y, 1) then 1
    else if IsSet(y, 2) then 2
    else if IsSet(y, 3) then 3
    else if IsSet(y, 4) then 4
    else if IsSet(y, 5) then 5
    else if IsSet(y, 6) then 6
    else if IsSet(y, 7) then 7
    else 0
  }

  function FindFree(d: Disk): (nr: nat)
    requires Formed(d)
    ensures nr < Limit(d.size) + 8
  {
    var x := FirstNonzero(d.vtoc, 10, BitmapEnd(d.size));
    (x - 10) * 8 + PickBit(d.vtoc[x])
  }

  /** Add `delta` to the 16-bit counter stored at `i`. */
  function Bump(vtoc: seq<byte>, i: nat, delta: int): (r: seq<byte>)
    requires i + 1 < |vtoc|
    ensures |r| == |vtoc|
  {
    var c := Word(vtoc[i], vtoc[i + 1]) + delta;
    vtoc[i := Low(c)][i + 1 := High(c)]
  }

  /** Adjust the counter that sector `nr` belongs to. */
  function Count(size: nat, vtoc: seq<byte>, nr: nat, delta: int): (r: seq<byte>)
    requires |vtoc| == 256
    ensures |r| == 256
  {
    if nr < 720 then Bump(vtoc, 3, delta) else if size == SS_ED then Bump(vtoc, 138, delta) else vtoc
  }

  function MarkSec(d: Disk, nr: nat): (r: Disk)
    requires Formed(d) && nr < 1968
    ensures Formed(r)
  {
    var b := 10 + nr / 8;
    d.(vtoc := Count(d.size, d.vtoc[b := ClearBit(d.vtoc[b], nr % 8)], nr, -1))
  }

  function FreeSec(d: Disk, nr: nat): (r: Disk)
    requires Formed(d) && nr < 1968
    ensures Formed(r)
  {
    var b := 10 + nr / 8;
    d.(vtoc := Count(d.size, d.vtoc[b := SetBit(d.vtoc[b], nr % 8)], nr, 1))
  }

  function Counter(vtoc: seq<byte>, i: nat): int
    requires i + 1 < |vtoc|
  {
    Word(vtoc[i], vtoc[i + 1])
  }

  /** The free sectors from `lo` up to `hi`. */
  function Free(vtoc: seq<byte>, lo: nat, hi: nat): set<nat>
    requires |vtoc| == 256 && hi < 1968
  {
    set nr: nat | lo <= nr < hi && IsFree(vtoc, nr)
  }

  function AllFree(d: Disk): set<nat>
    requires Formed(d)
  {
    Free(d.vtoc, 0, Limit(d.size))
  }

  /** The counters hold the numbers of set bits in their parts of the bitmap. */
  predicate Counted(d: Disk)
    requires Formed(d)
  {
    Counter(d.vtoc, 3) == |Free(d.vtoc, 0, 720)|
    && (d.size == SS_ED ==> Counter(d.vtoc, 138) == |Free(d.vtoc, 720, 1024)|)
  }

  /** A well-formed disk: right counters, and sector 0, the VTOC and the directory are not free. */
  ghost predicate WellFormed(d: Disk) {
    Formed(d) && Counted(d) && forall nr: nat :: nr == 0 || 360 <= nr <= 368 ==> !IsFree(d.vtoc, nr)
  }

  /** When a sector is free, `find_free_sec` returns a free sector, from the first bitmap byte that has one. Within
      that byte it is the first one, except that a byte's first sector comes last. */
  lemma FindFreeFinds(d: Disk)
    requires Formed(d) && AllFree(d) != {}
    ensures FindFree(d) in AllFree(d)
    ensures forall nr :: nr in AllFree(d) ==> FindFree(d) / 8 <= nr / 8
    ensures forall nr :: nr in AllFree(d) && nr / 8 == FindFree(d) / 8 && nr != FindFree(d)
              ==> FindFree(d) % 8 != 0 && (nr % 8 == 0 || FindFree(d) < nr)
  {
    var end := BitmapEnd(d.size);
    var x := FirstNonzero(d.vtoc, 10, end);
    forall nr | nr in AllFree(d) ensures x <= 10 + nr / 8 {
      NonzeroBits(d.vtoc[10 + nr / 8]);
    }
    var any :| any in AllFree(d);
    PickBitPicks(d.vtoc[x]);
    assert FindFree(d) / 8 == x - 10 && FindFree(d) % 8 == PickBit(d.vtoc[x]);
    forall nr | nr in AllFree(d) && nr / 8 == FindFree(d) / 8 && nr != FindFree(d)
      ensures FindFree(d) % 8 != 0 && (nr % 8 == 0 || FindFree(d) < nr)
    {
      assert IsSet(d.vtoc[x], nr % 8);
    }
  }

  lemma PickBitPicks(y: byte)
    requires y != 0
    ensures IsSet(y, PickBit(y))
    ensures forall k :: 0 <= k < 8 && IsSet(y, k) ==> k == 0 || (PickBit(y) != 0 && PickBit(y) <= k)
  {
    NonzeroBits(y);
  }

  /** The bitmap in numbers: a sector's binary digit in the bytes from 10 on is 1 if it is free. */
  lemma BitmapLayout(d: Disk)
    requires Formed(d)
    ensures forall nr: nat :: nr in AllFree(d) <==>
              nr < (if d.size == 1040 then 1024 else 720) && Digit(d.vtoc[10 + nr / 8], nr % 8) == 1
  {
    forall nr: nat | nr < 1024 ensures IsFree(d.vtoc, nr) <==> Digit(d.vtoc[10 + nr / 8], nr % 8) == 1 {
      IsSetIsDigit(d.vtoc[10 + nr / 8], nr % 8);
    }
  }

  /** Bytes 3 and 4 count the free sectors below 720, and bytes 138 and 139 of an enhanced-density disk the
      others. */
  lemma CounterLayout(d: Disk)
    requires Formed(d)
    ensures Counted(d) <==>
              d.vtoc[3] as int + 256 * d.vtoc[4] as int == |set nr | nr in AllFree(d) && nr < 720|
              && (d.size == 1040 ==>
                  d.vtoc[138] as int + 256 * d.vtoc[139] as int == |set nr | nr in AllFree(d) && nr >= 720|)
  {
    assert Free(d.vtoc, 0, 720) == set nr | nr in AllFree(d) && nr < 720;
    if d.size == 1040 {
      assert Free(d.vtoc, 720, 1024) == set nr | nr in AllFree(d) && nr >= 720;
    }
  }

  lemma BitmapUpdate(size: nat, vtoc: seq<byte>, nr: nat, b: byte, delta: int)
    requires |vtoc| == 256 && nr < 1024
    ensures var r := Count(size, vtoc[10 + nr / 8 := b], nr, delta);
            forall j :: 0 <= j < 1024 ==> r[10 + j / 8] == if j / 8 == nr / 8 then b else vtoc[10 + j / 8]
  {
  }

  lemma MarkBits(d: Disk, nr: nat)
    requires Formed(d) && nr < 1024
    ensures forall j :: 0 <= j < 1024 ==> IsFree(MarkSec(d, nr).vtoc, j) == (j != nr && IsFree(d.vtoc, j))
  {
    var b := ClearBit(d.vtoc[10 + nr / 8], nr % 8);
    BitmapUpdate(d.size, d.vtoc, nr, b, -1);
    forall j | 0 <= j < 1024 ensures IsFree(MarkSec(d, nr).vtoc, j) == (j != nr && IsFree(d.vtoc, j)) {
      if j / 8 == nr / 8 {
        ClearBitBits(d.vtoc[10 + nr / 8], nr % 8, j % 8);
      }
    }
  }

  lemma FreeBits(d: Disk, nr: nat)
    requires Formed(d) && nr < 1024
    ensures forall j :: 0 <= j < 1024 ==> IsFree(FreeSec(d, nr).vtoc, j) == (j == nr || IsFree(d.vtoc, j))
  {
    var b := SetBit(d.vtoc[10 + nr / 8], nr % 8);
    BitmapUpdate(d.size, d.vtoc, nr, b, 1);
    forall j | 0 <= j < 1024 ensures IsFree(FreeSec(d, nr).vtoc, j) == (j == nr || IsFree(d.vtoc, j)) {
      if j / 8 == nr / 8 {
        SetBitBits(d.vtoc[10 + nr / 8], nr % 8, j % 8);
      }
    }
  }

  /** The counter of `nr`'s part of the bitmap moves by `delta`, the other one not at all. */
  lemma CountEffect(size: nat, vtoc: seq<byte>, nr: nat, b: byte, delta: int)
    requires |vtoc| == 256 && nr < Limit(size) && (size == SS_SD || size == SS_ED)
    requires 0 <= Counter(vtoc, if nr < 720 then 3 else 138) + delta < 0x1_0000
    ensures var r := Count(size, vtoc[10 + nr / 8 := b], nr, delta);
            Counter(r, 3) == Counter(vtoc, 3) + (if nr < 720 then delta else 0)
            && Counter(r, 138) == Counter(vtoc, 138) + (if nr < 720 then 0 else delta)
  {
  }

  lemma MarkSets(d: Disk, nr: nat)
    requires Formed(d) && nr < 1024
    ensures Free(MarkSec(d, nr).vtoc, 0, 720) == Free(d.vtoc, 0, 720) - {nr}
    ensures Free(MarkSec(d, nr).vtoc, 720, 1024) == Free(d.vtoc, 720, 1024) - {nr}
    ensures AllFree(MarkSec(d, nr)) == AllFree(d) - {nr}
  {
    MarkBits(d, nr);
  }

  lemma FreeSets(d: Disk, nr: nat)
    requires Formed(d) && nr < Limit(d.size)
    ensures Free(FreeSec(d, nr).vtoc, 0, 720) == Free(d.vtoc, 0, 720) + if nr < 720 then {nr} else {}
    ensures Free(FreeSec(d, nr).vtoc, 720, 1024) == Free(d.vtoc, 720, 1024) + if nr < 720 then {} else {nr}
    ensures AllFree(FreeSec(d, nr)) == AllFree(d) + {nr}
  {
    FreeBits(d, nr);
  }

  lemma MarkCounts(d: Disk, nr: nat)
    requires Formed(d) && Counted(d) && nr in AllFree(d)
    ensures Counted(MarkSec(d, nr))
  {
    MarkSets(d, nr);
    CardinalityBound(d.vtoc, 0, 720);
    CardinalityBound(d.vtoc, 720, 1024);
    assert nr in if nr < 720 then Free(d.vtoc, 0, 720) else Free(d.vtoc, 720, 1024);
    CountEffect(d.size, d.vtoc, nr, ClearBit(d.vtoc[10 + nr / 8], nr % 8), -1);
  }

  /** Marking a free sector takes it, and nothing else, from the free ones, and keeps the counters right. */
  lemma MarkKeeps(d: Disk, nr: nat)
    requires WellFormed(d) && nr in AllFree(d)
    ensures WellFormed(MarkSec(d, nr))
    ensures AllFree(MarkSec(d, nr)) == AllFree(d) - {nr}
  {
    MarkCounts(d, nr);
    MarkBits(d, nr);
    MarkSets(d, nr);
  }

  /** Freeing a marked sector adds exactly it to the free ones and keeps the counters right. */
  lemma FreeKeeps(d: Disk, nr: nat)
    requires Formed(d) && Counted(d) && nr < Limit(d.size) && nr !in AllFree(d)
    ensures Counted(FreeSec(d, nr))
    ensures AllFree(FreeSec(d, nr)) == AllFree(d) + {nr}
  {
    assert nr !in Free(d.vtoc, 0, 720) && nr !in Free(d.vtoc, 720, 1024);
    FreeSets(d, nr);
    CardinalityBound(d.vtoc, 0, 720);
    CardinalityBound(d.vtoc, 720, 1024);
    CountEffect(d.size, d.vtoc, nr, SetBit(d.vtoc[10 + nr / 8], nr % 8), 1);
  }

  lemma {:induction false} CardinalityBound(vtoc: seq<byte>, lo: nat, hi: nat)
    requires |vtoc| == 256 && lo <= hi < 1968
    ensures |Free(vtoc, lo, hi)| <= hi - lo
    decreases hi - lo
  {
    if lo < hi {
      CardinalityBound(vtoc, lo, hi - 1);
      assert Free(vtoc, lo, hi) <= Free(vtoc, lo, hi - 1) + {hi - 1};
      SubsetSize(Free(vtoc, lo, hi), Free(vtoc, lo, hi - 1) + {hi - 1});
    } else {
      assert Free(vtoc, lo, hi) == {};
    }
  }

  lemma {:induction false} SubsetSize<T>(a: set<T>, b: set<T>)
    requires a <= b
    ensures |a| <= |b|
  {
    if a != {} {
      var x :| x in a;
      SubsetSize(a - {x}, b - {x});
    }
  }
}
