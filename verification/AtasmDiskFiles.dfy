/** Files on ATasm's disk images: writing a chain, reading it back, deleting it, and the VTOC's own
    round trip through its sectors. */
module AtasmDiskFiles {
  import opened Bytes
  import opened AtasmDisk

  function Zeroed(): (s: Sector)
    ensures Link(s) == 0
  {
    seq(128, _ => 0)
  }

  // ---------------------------------------------------------------- writing

  /** A full sector: 125 bytes of data, the link to `next` under the directory entry's number, the count. */
  function FullSector(data: seq<byte>, entry: nat, next: nat): Sector
    requires |data| == LNK
  {
    data + [Low(entry * 4 + High(next) % 4), Low(next), 125]
  }

  /** The last, partly filled sector; what the data does not cover is left from the buffer. */
  function LastSector(buf: Sector, data: seq<byte>, entry: nat): Sector
    requires |data| < LNK
  {
    data + buf[|data|..LNK] + [Low(entry * 4), 0, |data|]
  }

  /** The buffer with its link cut. */
  function EndLink(buf: Sector, entry: nat): Sector {
    buf[..LNK] + [Low(entry * 4), 0, buf[LNK + 2]]
  }

  /** The write loop of `write_xfd_file` and the sector after it; `cur` is the sector written last. */
  function WriteLoop(d: Disk, data: seq<byte>, entry: nat, cur: nat): (r: Disk)
    requires Formed(d)
    ensures Formed(r)
    decreases |data|
  {
    if |data| >= LNK then
      var sec := FindFree(d);
      WriteLoop(WriteFull(d, data[..LNK], entry), data[LNK..], entry, sec)
    else if data != [] then
      WriteLast(d, data, entry)
    else
      WriteSec(d.(buf := EndLink(d.buf, entry)), cur)
  }

  function WriteLast(d: Disk, data: seq<byte>, entry: nat): (r: Disk)
    requires Formed(d) && |data| < LNK
    ensures Formed(r)
  {
    var sec := FindFree(d);
    WriteSec(MarkSec(d, sec).(buf := LastSector(d.buf, data, entry)), sec)
  }

  function WriteFull(d: Disk, data: seq<byte>, entry: nat): (r: Disk)
    requires Formed(d) && |data| == LNK
    ensures Formed(r)
  {
    var sec := FindFree(d);
    var d1 := MarkSec(d, sec);
    WriteSec(d1.(buf := FullSector(data, entry, FindFree(d1))), sec)
  }

  function FreeCount(d: Disk): int
    requires Formed(d)
  {
    Counter(d.vtoc, 3) + if d.size == SS_ED then Counter(d.vtoc, 138) else 0
  }

  datatype Written = NoRoom | Stored(d: Disk, start: nat)

  /** `write_xfd_file` from the check for room to the saving of the VTOC. */
  function WriteFile(d: Disk, data: seq<byte>, entry: nat): (w: Written)
    requires Formed(d)
    ensures w.Stored? ==> Formed(w.d)
  {
    if FreeCount(d) * LNK < |data| then NoRoom
    else Stored(WriteVtoc(WriteLoop(d, data, entry, 0)), FindFree(d))
  }

  /** `writeVTOC`: on an enhanced-density disk the bitmap is split over two overlapping sectors. */
  function WriteVtoc(d: Disk): (r: Disk)
    requires Formed(d)
    ensures Formed(r)
  {
    if d.size == SS_ED then
      var second: Sector := d.vtoc[16..144];
      var first: Sector := d.vtoc[..100] + seq(27, _ => 0) + [d.vtoc[127]];
      d.(sectors := d.sectors[VTOC_SECTOR2 - 1 := second][VTOC_SECTOR - 1 := first])
    else
      d.(sectors := d.sectors[VTOC_SECTOR - 1 := d.vtoc[..128]])
  }

  /** `readVTOC` into a zeroed buffer. */
  function ReadVtoc(d: Disk): (vtoc: seq<byte>)
    requires Formed(d)
    ensures |vtoc| == 256
  {
    var first := At(d, VTOC_SECTOR) + seq(128, _ => 0);
    if d.size == SS_ED then first[..100] + At(d, VTOC_SECTOR2)[84..] + first[144..] else first
  }

  /** Where the buffer goes. On an enhanced-density disk sector 360 takes the first 100 bytes and byte 127, zeros
      between them, and sector 1024 the bytes from 16 to 143. */
  lemma VtocSectors(d: Disk)
    requires Formed(d)
    ensures var r := WriteVtoc(d);
            d.size == 720 ==> r == d.(sectors := d.sectors[359 := d.vtoc[..128]])
    ensures var r := WriteVtoc(d);
            d.size == 1040 ==>
              (forall i :: 0 <= i < 128 ==> At(r, 360)[i] == (if 100 <= i < 127 then 0 else d.vtoc[i]))
              && (forall i :: 0 <= i < 128 ==> At(r, 1024)[i] == d.vtoc[16 + i])
              && r.vtoc == d.vtoc && r.buf == d.buf
              && (forall nr :: OnDisk(d, nr) && nr != 360 && nr != 1024 ==> At(r, nr) == At(d, nr))
  {
  }

  /** Reading the VTOC back gives the buffer that was written, as far as the format stores it. */
  lemma VtocRoundTrip(d: Disk)
    requires Formed(d)
    requires forall i :: (if d.size == SS_ED then 144 else 128) <= i < 256 ==> d.vtoc[i] == 0
    ensures ReadVtoc(WriteVtoc(d)) == d.vtoc
  {
  }

  // ---------------------------------------------------------------- chains

  /** Following links from `start`, as `delete_file` does, visits exactly `chain` and ends at link 0. */
  ghost predicate IsChain(d: Disk, start: nat, chain: seq<nat>)
    requires Formed(d)
    decreases |chain|
  {
    if chain == [] then start == 0
    else chain[0] == start && start != 0 && OnDisk(d, start) && IsChain(d, Link(At(d, start)), chain[1..])
  }

  /** The data bytes of a sector, as many as its count byte says. */
  function Payload(s: Sector): seq<byte> {
    s[..if s[LNK + 2] <= LNK then s[LNK + 2] else LNK]
  }

  ghost function Contents(d: Disk, chain: seq<nat>): seq<byte>
    requires Formed(d) && forall nr :: nr in chain ==> OnDisk(d, nr)
  {
    if chain == [] then [] else Payload(At(d, chain[0])) + Contents(d, chain[1..])
  }

  function Elements(chain: seq<nat>): set<nat> {
    set nr | nr in chain
  }

  ghost predicate Distinct(chain: seq<nat>) {
    forall i, j :: 0 <= i < j < |chain| ==> chain[i] != chain[j]
  }

  /** The disks agree on every sector outside `changed`. */
  ghost predicate SameOutside(d: Disk, r: Disk, changed: set<nat>)
    requires Formed(d) && Formed(r)
  {
    d.size == r.size && forall nr: nat :: OnDisk(d, nr) && nr !in changed ==> At(r, nr) == At(d, nr)
  }

  /** A chain that avoids the changed sectors reads back unchanged. */
  lemma {:induction false} ChainUnchanged(d: Disk, r: Disk, changed: set<nat>, start: nat, chain: seq<nat>)
    requires Formed(d) && Formed(r) && SameOutside(d, r, changed) && Elements(chain) !! changed
    requires IsChain(d, start, chain)
    ensures forall nr :: nr in chain ==> OnDisk(d, nr) && OnDisk(r, nr)
    ensures IsChain(r, start, chain) && Contents(r, chain) == Contents(d, chain)
    decreases |chain|
  {
    if chain != [] {
      assert chain[0] in Elements(chain);
      assert Elements(chain[1..]) <= Elements(chain);
      ChainUnchanged(d, r, changed, Link(At(d, start)), chain[1..]);
    }
  }

  /** `s` is the sector with index `i` of the file `data`, which has the number `entry` in the directory, and
      is followed by sector `next`: 125 bytes of the file, or what is left of it, the file number in the upper
      six bits of byte 125, the link in the ten bits after it, and the number of bytes used. */
  ghost predicate FileSector(s: Sector, data: seq<byte>, entry: nat, i: nat, next: nat) {
    && s[125] == entry % 64 * 4 + next / 256
    && s[126] == next % 256
    && s[127] == (if 125 * i + 125 <= |data| then 125 else |data| - 125 * i)
    && forall j :: 0 <= j < 125 && 125 * i + j < |data| ==> s[j] == data[125 * i + j]
  }

  /** The sectors of `chain`, in order, are laid out as those of the file `data`; link 0 ends it. */
  ghost predicate LaidOut(r: Disk, chain: seq<nat>, data: seq<byte>, entry: nat)
    requires Formed(r)
  {
    forall i :: 0 <= i < |chain| ==> LaidOutAt(r, chain, i, data, entry)
  }

  ghost predicate LaidOutAt(r: Disk, chain: seq<nat>, i: nat, data: seq<byte>, entry: nat)
    requires Formed(r) && i < |chain|
  {
    OnDisk(r, chain[i]) && FileSector(At(r, chain[i]), data, entry, i, if i + 1 < |chain| then chain[i + 1] else 0)
  }

  /** The file number and the upper bits of a link share a byte. */
  lemma SharedByte(entry: nat, h: nat)
    requires h < 4
    ensures Low(entry * 4 + h) == entry % 64 * 4 + h
  {
    assert entry * 4 + h == entry / 64 * 256 + (entry % 64 * 4 + h);
  }

  lemma LinkOfFull(data: seq<byte>, entry: nat, next: nat)
    requires |data| == LNK && next < 1024
    ensures Link(FullSector(data, entry, next)) == next && Payload(FullSector(data, entry, next)) == data
    ensures FileSector(FullSector(data, entry, next), data, entry, 0, next)
  {
    var s := FullSector(data, entry, next);
    assert s[LNK] == Low(entry * 4 + High(next) % 4) && s[LNK + 1] == Low(next);
    SharedByte(entry, High(next));
    assert s[LNK] % 4 == High(next);
    assert s[..LNK] == data;
  }

  lemma LinkOfLast(buf: Sector, data: seq<byte>, entry: nat)
    requires |data| < LNK
    ensures Link(LastSector(buf, data, entry)) == 0 && Payload(LastSector(buf, data, entry)) == data
    ensures FileSector(LastSector(buf, data, entry), data, entry, 0, 0)
  {
    var s := LastSector(buf, data, entry);
    assert s[LNK + 2] == |data| && s[LNK + 1] == 0 && s[LNK] == Low(entry * 4);
    SharedByte(entry, 0);
    assert s[..|data|] == data;
  }

  /** Putting a sector's worth of data in front moves the sectors behind it by one. */
  lemma SectorMoves(s: Sector, head: seq<byte>, tail: seq<byte>, entry: nat, i: nat, next: nat)
    requires |head| == 125 && FileSector(s, tail, entry, i, next)
    ensures FileSector(s, head + tail, entry, i + 1, next)
  {
    forall j | 0 <= j < 125 && 125 * (i + 1) + j < |head + tail| ensures s[j] == (head + tail)[125 * (i + 1) + j] {
      assert (head + tail)[125 * (i + 1) + j] == tail[125 * i + j];
    }
  }

  /** A sector's worth of data is a full first sector, whatever follows. */
  lemma FirstSector(s: Sector, head: seq<byte>, tail: seq<byte>, entry: nat, next: nat)
    requires |head| == 125 && FileSector(s, head, entry, 0, next)
    ensures FileSector(s, head + tail, entry, 0, next)
  {
  }

  function SectorsFor(n: nat): nat {
    (n + LNK - 1) / LNK
  }

  /** `chain` was taken from the free sectors of `d`, and only its sectors have been written. */
  ghost predicate Allocated(d: Disk, r: Disk, chain: seq<nat>) {
    WellFormed(d) && WellFormed(r) && SameOutside(d, r, Elements(chain)) && Distinct(chain)
    && Elements(chain) <= AllFree(d) && AllFree(r) == AllFree(d) - Elements(chain)
  }

  /** `chain` is the file with the number `entry` at `start` and holds `data`. */
  ghost predicate Stores(r: Disk, start: nat, chain: seq<nat>, data: seq<byte>, entry: nat) {
    Formed(r) && IsChain(r, start, chain) && |chain| == SectorsFor(|data|)
    && (forall nr :: nr in chain ==> OnDisk(r, nr)) && Contents(r, chain) == data && LaidOut(r, chain, data, entry)
  }

  /** Taking the sector that `find_free_sec` offers. */
  lemma TakeFree(d: Disk)
    requires WellFormed(d) && AllFree(d) != {}
    ensures OnDisk(d, FindFree(d)) && FindFree(d) in AllFree(d) && FindFree(d) < 1024
    ensures WellFormed(MarkSec(d, FindFree(d))) && AllFree(MarkSec(d, FindFree(d))) == AllFree(d) - {FindFree(d)}
  {
    FindFreeFinds(d);
    MarkKeeps(d, FindFree(d));
  }

  /** `r` is `d` with the sector `sec` taken and written with `s`. */
  ghost predicate Puts(d: Disk, r: Disk, sec: nat, s: Sector) {
    Formed(d) && Formed(r) && OnDisk(d, sec) && sec in AllFree(d) && r.size == d.size
    && WellFormed(r) && AllFree(r) == AllFree(d) - {sec}
    && SameOutside(d, r, {sec}) && At(r, sec) == s
  }

  /** Being well-formed and having sectors free is a matter of the VTOC buffer alone. */
  lemma SameVtoc(m: Disk, r: Disk)
    requires Formed(m) && Formed(r) && r.vtoc == m.vtoc && r.size == m.size
    ensures AllFree(r) == AllFree(m) && (WellFormed(m) ==> WellFormed(r))
  {
  }

  /** Writing the buffer changes one sector, and nothing else. */
  lemma WrittenSector(m: Disk, sec: nat, s: Sector)
    requires Formed(m) && OnDisk(m, sec)
    ensures var r := WriteSec(m.(buf := s), sec);
      Formed(r) && r.vtoc == m.vtoc && r.size == m.size && At(r, sec) == s && SameOutside(m, r, {sec})
  {
  }

  lemma PutSector(d: Disk, s: Sector)
    requires WellFormed(d) && AllFree(d) != {}
    ensures Puts(d, WriteSec(MarkSec(d, FindFree(d)).(buf := s), FindFree(d)), FindFree(d), s)
  {
    TakeFree(d);
    var m := MarkSec(d, FindFree(d));
    WrittenSector(m, FindFree(d), s);
    SameVtoc(m, WriteSec(m.(buf := s), FindFree(d)));
    assert SameOutside(d, m, {});
  }

  lemma OneSector(d: Disk, r: Disk, sec: nat, s: Sector, data: seq<byte>, entry: nat)
    requires WellFormed(d) && Puts(d, r, sec, s) && Link(s) == 0 && Payload(s) == data && 0 < |data| <= LNK
    requires FileSector(s, data, entry, 0, 0)
    ensures Allocated(d, r, [sec]) && Stores(r, sec, [sec], data, entry)
  {
    assert Elements([sec]) == {sec};
    assert Contents(r, [sec][1..]) == [];
    assert IsChain(r, 0, [sec][1..]);
  }

  lemma WriteFullIs(d: Disk, data: seq<byte>, entry: nat)
    requires Formed(d) && |data| == LNK
    ensures var m := MarkSec(d, FindFree(d));
            var s := FullSector(data, entry, FindFree(m));
            WriteFull(d, data, entry) == WriteSec(m.(buf := s), FindFree(d))
            && WriteFull(d, data, entry).buf == s && FindFree(WriteFull(d, data, entry)) == FindFree(m)
  {
  }

  /** A full sector links to the sector that will be found free next. */
  lemma WriteFullPuts(d: Disk, data: seq<byte>, entry: nat)
    requires WellFormed(d) && AllFree(d) != {} && |data| == LNK
    ensures var mid := WriteFull(d, data, entry);
            mid.buf == FullSector(data, entry, FindFree(mid)) && Puts(d, mid, FindFree(d), mid.buf)
  {
    WriteFullIs(d, data, entry);
    PutSector(d, WriteFull(d, data, entry).buf);
  }

  lemma {:induction false} WriteLoopHolds(d: Disk, data: seq<byte>, entry: nat, cur: nat) returns (chain: seq<nat>)
    requires WellFormed(d) && data != [] && |data| <= LNK * |AllFree(d)|
    ensures Allocated(d, WriteLoop(d, data, entry, cur), chain)
    ensures Stores(WriteLoop(d, data, entry, cur), FindFree(d), chain, data, entry)
    decreases |data|
  {
    if |data| < LNK {
      WritePartial(d, data, entry);
      chain := [FindFree(d)];
    } else {
      var head, tail := data[..LNK], data[LNK..];
      var mid := WriteFull(d, head, entry);
      WriteFullPuts(d, head, entry);
      assert head + tail == data;
      if tail == [] {
        CutLink(d, mid, FindFree(d), mid.buf, entry, head);
        chain := [FindFree(d)];
      } else {
        assert |AllFree(mid)| == |AllFree(d)| - 1;
        var rest := WriteLoopHolds(mid, tail, entry, FindFree(d));
        FindFreeFinds(mid);
        LinkOfFull(head, entry, FindFree(mid));
        chain := Prepend(d, mid, WriteLoop(mid, tail, entry, FindFree(d)), FindFree(d), mid.buf, rest, head, tail, entry);
      }
    }
  }

  lemma WritePartial(d: Disk, data: seq<byte>, entry: nat)
    requires WellFormed(d) && AllFree(d) != {} && 0 < |data| < LNK
    ensures Allocated(d, WriteLast(d, data, entry), [FindFree(d)])
    ensures Stores(WriteLast(d, data, entry), FindFree(d), [FindFree(d)], data, entry)
  {
    var s := LastSector(d.buf, data, entry);
    PutSector(d, s);
    LinkOfLast(d.buf, data, entry);
    OneSector(d, WriteLast(d, data, entry), FindFree(d), s, data, entry);
  }

  /** A file that fills its last sector: the link written ahead of time is cut afterwards. */
  lemma EndLinkEnds(s: Sector, entry: nat, data: seq<byte>)
    requires |data| == LNK && s[..LNK] == data && s[LNK + 2] == 125
    ensures Link(EndLink(s, entry)) == 0 && Payload(EndLink(s, entry)) == data
    ensures FileSector(EndLink(s, entry), data, entry, 0, 0)
  {
    var e := EndLink(s, entry);
    SharedByte(entry, 0);
    assert e[LNK + 2] == 125 && e[..LNK] == data && e[LNK + 1] == 0 && e[LNK] % 4 == 0;
  }

  /** Writing the same sector again. */
  lemma PutAgain(d: Disk, mid: Disk, sec: nat, s: Sector, e: Sector)
    requires Puts(d, mid, sec, s)
    ensures Puts(d, WriteSec(mid.(buf := e), sec), sec, e)
  {
    SameVtoc(mid, WriteSec(mid.(buf := e), sec));
  }

  lemma CutLink(d: Disk, mid: Disk, sec: nat, s: Sector, entry: nat, data: seq<byte>)
    requires WellFormed(d) && Puts(d, mid, sec, s) && |data| == LNK && s[..LNK] == data && s[LNK + 2] == 125
    ensures var r := WriteSec(mid.(buf := EndLink(s, entry)), sec);
            Allocated(d, r, [sec]) && Stores(r, sec, [sec], data, entry)
  {
    var e := EndLink(s, entry);
    EndLinkEnds(s, entry, data);
    PutAgain(d, mid, sec, s, e);
    OneSector(d, WriteSec(mid.(buf := e), sec), sec, e, data, entry);
  }

  lemma PrependAllocated(d: Disk, mid: Disk, r: Disk, sec: nat, s: Sector, rest: seq<nat>)
    requires WellFormed(d) && Puts(d, mid, sec, s) && Allocated(mid, r, rest)
    ensures Allocated(d, r, [sec] + rest) && At(r, sec) == s && OnDisk(r, sec)
  {
    PrependSets(AllFree(d), AllFree(mid), AllFree(r), sec, rest);
  }

  /** Putting a full sector in front of a chain. */
  lemma Prepend(d: Disk, mid: Disk, r: Disk, sec: nat, s: Sector, rest: seq<nat>, head: seq<byte>, tail: seq<byte>,
                entry: nat) returns (chain: seq<nat>)
    requires WellFormed(d) && Puts(d, mid, sec, s) && Allocated(mid, r, rest) && sec != 0 && 0 < |tail|
    requires Stores(r, Link(s), rest, tail, entry) && Payload(s) == head && |head| == LNK
    requires FileSector(s, head, entry, 0, Link(s))
    ensures Allocated(d, r, chain) && Stores(r, sec, chain, head + tail, entry)
  {
    chain := [sec] + rest;
    PrependAllocated(d, mid, r, sec, s, rest);
    assert chain[1..] == rest;
    PrependLaidOut(r, sec, s, rest, head, tail, entry);
  }

  lemma PrependLaidOut(r: Disk, sec: nat, s: Sector, rest: seq<nat>, head: seq<byte>, tail: seq<byte>, entry: nat)
    requires Formed(r) && OnDisk(r, sec) && At(r, sec) == s && rest != [] && |head| == LNK
    requires LaidOut(r, rest, tail, entry) && FileSector(s, head, entry, 0, rest[0])
    ensures LaidOut(r, [sec] + rest, head + tail, entry)
  {
    var chain := [sec] + rest;
    FirstSector(s, head, tail, entry, rest[0]);
    assert LaidOutAt(r, chain, 0, head + tail, entry);
    forall i: nat | 0 < i < |chain| ensures LaidOutAt(r, chain, i, head + tail, entry) {
      var next := if i < |rest| then rest[i] else 0;
      assert LaidOutAt(r, rest, i - 1, tail, entry);
      SectorMoves(At(r, rest[i - 1]), head, tail, entry, i - 1, next);
    }
  }

  lemma PrependSets(free: set<nat>, freeMid: set<nat>, freeEnd: set<nat>, sec: nat, rest: seq<nat>)
    requires sec in free && freeMid == free - {sec} && Elements(rest) <= freeMid && freeEnd == freeMid - Elements(rest)
    requires Distinct(rest)
    ensures Elements([sec] + rest) == {sec} + Elements(rest) && sec !in Elements(rest) && Distinct([sec] + rest)
    ensures Elements([sec] + rest) <= free && freeEnd == free - Elements([sec] + rest)
  {
  }

  lemma CountIsFree(d: Disk)
    requires WellFormed(d)
    ensures FreeCount(d) == |AllFree(d)|
  {
    if d.size == SS_ED {
      assert AllFree(d) == Free(d.vtoc, 0, 720) + Free(d.vtoc, 720, 1024);
    }
  }

  lemma StoredUnchanged(d: Disk, r: Disk, changed: set<nat>, start: nat, chain: seq<nat>, data: seq<byte>, entry: nat)
    requires Formed(d) && Formed(r) && SameOutside(d, r, changed) && Elements(chain) !! changed
    requires Stores(d, start, chain, data, entry)
    ensures Stores(r, start, chain, data, entry)
  {
    ChainUnchanged(d, r, changed, start, chain);
    forall i: nat | i < |chain| ensures LaidOutAt(r, chain, i, data, entry) {
      assert LaidOutAt(d, chain, i, data, entry) && chain[i] in Elements(chain);
    }
  }

  lemma VtocSectorsOutside(d: Disk, chain: seq<nat>)
    requires WellFormed(d) && Elements(chain) <= AllFree(d)
    ensures VTOC_SECTOR !in Elements(chain) && VTOC_SECTOR2 !in Elements(chain)
  {
  }

  /** Writing a file that fits stores exactly its bytes in a chain of formerly free sectors that starts
      at the reported sector and ends at link 0; nothing else on the disk changes except the VTOC. */
  lemma WriteStores(d: Disk, data: seq<byte>, entry: nat) returns (chain: seq<nat>)
    requires WellFormed(d) && data != [] && WriteFile(d, data, entry).Stored?
    ensures var Stored(r, start) := WriteFile(d, data, entry);
            WellFormed(r) && Stores(r, start, chain, data, entry) && Distinct(chain)
            && Elements(chain) <= AllFree(d) && AllFree(r) == AllFree(d) - Elements(chain)
            && r.vtoc == WriteLoop(d, data, entry, 0).vtoc
            && SameOutside(d, r, Elements(chain) + {VTOC_SECTOR, VTOC_SECTOR2})
  {
    CountIsFree(d);
    chain := WriteLoopHolds(d, data, entry, 0);
    var mid := WriteLoop(d, data, entry, 0);
    var r := WriteVtoc(mid);
    VtocSectorsOutside(d, chain);
    assert SameOutside(mid, r, {VTOC_SECTOR, VTOC_SECTOR2});
    StoredUnchanged(mid, r, {VTOC_SECTOR, VTOC_SECTOR2}, FindFree(d), chain, data, entry);
  }

  /** The room check is exact: a file is refused just when the free sectors cannot hold it. */
  lemma RoomCheck(d: Disk, data: seq<byte>, entry: nat)
    requires WellFormed(d)
    ensures WriteFile(d, data, entry).Stored? <==> SectorsFor(|data|) <= |AllFree(d)|
  {
    CountIsFree(d);
  }

  /** Every chain of allocated sectors, apart from the VTOC's own, reads back unchanged after a write. */
  lemma OtherFilesKept(d: Disk, data: seq<byte>, entry: nat, start: nat, file: seq<nat>)
    requires WellFormed(d) && data != [] && |data| <= LNK * FreeCount(d)
    requires IsChain(d, start, file) && Elements(file) !! AllFree(d) + {VTOC_SECTOR, VTOC_SECTOR2}
    ensures forall nr :: nr in file ==> OnDisk(d, nr) && OnDisk(WriteFile(d, data, entry).d, nr)
    ensures IsChain(WriteFile(d, data, entry).d, start, file)
    ensures Contents(WriteFile(d, data, entry).d, file) == Contents(d, file)
    ensures Elements(file) !! AllFree(WriteFile(d, data, entry).d)
  {
    var chain := WriteStores(d, data, entry);
    ChainUnchanged(d, WriteFile(d, data, entry).d, Elements(chain) + {VTOC_SECTOR, VTOC_SECTOR2}, start, file);
  }

  // ---------------------------------------------------------------- deleting

  /** The sectors that link to another one. */
  function Linked(d: Disk): set<nat>
    requires Formed(d)
  {
    set nr: nat | 1 <= nr <= d.size && Link(At(d, nr)) != 0
  }

  lemma EraseUnlinks(d: Disk, nr: nat)
    requires Formed(d) && nr < 1968
    ensures Linked(WriteSec(ReadSec(d, nr).(buf := Zeroed()), nr)) == Linked(d) - {nr}
  {
  }

  /** `delete_file`'s step: read, zero, write back and free the sector `nr`. */
  function Erase(d: Disk, nr: nat): (r: Disk)
    requires Formed(d) && nr < 1968
    ensures Formed(r) && r.buf == Zeroed() && Linked(r) == Linked(d) - {nr}
  {
    EraseUnlinks(d, nr);
    FreeSec(WriteSec(ReadSec(d, nr).(buf := Zeroed()), nr), nr)
  }

  /** The loop of `delete_file` from a start sector that the VTOC buffer can index. It ends on every
      disk image: each further step reads a sector with a link and leaves it zeroed. */
  function DeleteWalk(d: Disk, nr: nat): (r: Disk)
    requires Formed(d) && nr < 1968
    ensures Formed(r)
    decreases if d.buf == Zeroed() then 0 else 1, |Linked(d)|
  {
    if nr == 0 then d
    else if Link(ReadSec(d, nr).buf) == 0 then Erase(d, nr)
    else DeleteWalk(Erase(d, nr), Link(ReadSec(d, nr).buf))
  }

  lemma FirstElement(chain: seq<nat>)
    requires chain != [] && Distinct(chain)
    ensures Elements(chain) == {chain[0]} + Elements(chain[1..]) && chain[0] !in Elements(chain[1..])
    ensures Distinct(chain[1..])
  {
  }

  /** The sectors of a chain that the bitmap marks as used. */
  ghost predicate InUse(d: Disk, sectors: set<nat>)
    requires Formed(d)
  {
    sectors !! AllFree(d) && forall nr :: nr in sectors ==> nr < Limit(d.size)
  }

  /** `r` is `d` with the sectors of `erased` zeroed and freed. */
  ghost predicate Erased(d: Disk, r: Disk, erased: set<nat>) {
    Formed(d) && Formed(r) && Counted(r) && AllFree(r) == AllFree(d) + erased && SameOutside(d, r, erased)
    && forall nr: nat :: nr in erased ==> OnDisk(d, nr) && At(r, nr) == Zeroed()
  }

  lemma UnionsJoin(x: set<nat>, a: set<nat>, b: set<nat>)
    ensures (x + a) + b == x + (a + b)
  {
  }

  lemma ErasedMore(d: Disk, e: Disk, r: Disk, a: set<nat>, b: set<nat>)
    requires Erased(d, e, a) && Erased(e, r, b)
    ensures Erased(d, r, a + b)
  {
    UnionsJoin(AllFree(d), a, b);
    forall nr: nat | nr in a + b ensures OnDisk(d, nr) && At(r, nr) == Zeroed() {
      if nr !in b {
        assert At(r, nr) == At(e, nr);
      }
    }
  }

  lemma DeleteStep(d: Disk, start: nat)
    requires Formed(d) && start < 1968 && OnDisk(d, start)
    ensures DeleteWalk(d, start) == DeleteWalk(Erase(d, start), Link(At(d, start)))
  {
  }

  /** Deleting a chain of allocated sectors zeroes and frees exactly those. */
  lemma {:induction false} DeleteFrees(d: Disk, start: nat, chain: seq<nat>)
    requires Formed(d) && Counted(d) && start < 1968 && IsChain(d, start, chain) && Distinct(chain)
    requires InUse(d, Elements(chain))
    ensures Erased(d, DeleteWalk(d, start), Elements(chain))
    decreases |chain|
  {
    if chain == [] {
      assert Elements(chain) == {};
    } else {
      FirstElement(chain);
      assert start in Elements(chain);
      var e := Erase(d, start);
      var next := Link(At(d, start));
      EraseFrees(d, start);
      ChainUnchanged(d, e, {start}, next, chain[1..]);
      DeleteFrees(e, next, chain[1..]);
      DeleteStep(d, start);
      ErasedMore(d, e, DeleteWalk(e, next), {start}, Elements(chain[1..]));
    }
  }

  lemma EraseFrees(d: Disk, nr: nat)
    requires Formed(d) && Counted(d) && OnDisk(d, nr) && nr < Limit(d.size) && nr !in AllFree(d)
    ensures Erased(d, Erase(d, nr), {nr})
  {
    var w := WriteSec(ReadSec(d, nr).(buf := Zeroed()), nr);
    assert AllFree(w) == AllFree(d);
    FreeKeeps(w, nr);
  }

  // ---------------------------------------------------------------- deleting undoes writing

  predicate IsCountByte(size: nat, i: nat) {
    3 <= i <= 4 || (size == SS_ED && 138 <= i <= 139)
  }

  /** The VTOC bytes outside the bitmap and its counters are the same. */
  ghost predicate SameHeader(d: Disk, r: Disk)
    requires Formed(d) && Formed(r)
  {
    d.size == r.size
    && forall i :: 0 <= i < 256 && !IsCountByte(d.size, i) && !(10 <= i < BitmapEnd(d.size)) ==> r.vtoc[i] == d.vtoc[i]
  }

  lemma SameFreeBits(d: Disk, r: Disk)
    requires Formed(d) && Formed(r) && d.size == r.size && AllFree(d) == AllFree(r)
    ensures forall nr :: 0 <= nr < Limit(d.size) ==> IsFree(d.vtoc, nr) == IsFree(r.vtoc, nr)
  {
    forall nr | 0 <= nr < Limit(d.size) ensures IsFree(d.vtoc, nr) == IsFree(r.vtoc, nr) {
      assert nr in AllFree(d) <==> nr in AllFree(r);
    }
  }

  lemma SameBitmap(d: Disk, r: Disk)
    requires Formed(d) && Formed(r) && d.size == r.size && AllFree(d) == AllFree(r)
    ensures forall i :: 10 <= i < BitmapEnd(d.size) ==> d.vtoc[i] == r.vtoc[i]
  {
    SameFreeBits(d, r);
    forall i | 10 <= i < BitmapEnd(d.size) ensures d.vtoc[i] == r.vtoc[i] {
      forall k | 0 <= k < 8 ensures IsSet(d.vtoc[i], k) == IsSet(r.vtoc[i], k) {
        assert IsFree(d.vtoc, 8 * (i - 10) + k) == IsFree(r.vtoc, 8 * (i - 10) + k);
      }
      EqualBits(d.vtoc[i], r.vtoc[i]);
    }
  }

  lemma WordIsBytes(a: byte, b: byte, c: byte, d: byte)
    requires Word(a, b) == Word(c, d)
    ensures a == c && b == d
  {
  }

  lemma SameCounters(d: Disk, r: Disk)
    requires Formed(d) && Formed(r) && d.size == r.size && Counted(d) && Counted(r) && AllFree(d) == AllFree(r)
    ensures d.vtoc[3] == r.vtoc[3] && d.vtoc[4] == r.vtoc[4]
    ensures d.size == SS_ED ==> d.vtoc[138] == r.vtoc[138] && d.vtoc[139] == r.vtoc[139]
  {
    SameFreeBits(d, r);
    assert Free(d.vtoc, 0, 720) == Free(r.vtoc, 0, 720);
    WordIsBytes(d.vtoc[3], d.vtoc[4], r.vtoc[3], r.vtoc[4]);
    if d.size == SS_ED {
      assert Free(d.vtoc, 720, 1024) == Free(r.vtoc, 720, 1024);
      WordIsBytes(d.vtoc[138], d.vtoc[139], r.vtoc[138], r.vtoc[139]);
    }
  }

  /** The VTOC buffer is determined by its other bytes, the free sectors and the counters. */
  lemma VtocDetermined(d: Disk, r: Disk)
    requires Formed(d) && Formed(r) && SameHeader(d, r) && Counted(d) && Counted(r) && AllFree(d) == AllFree(r)
    ensures d.vtoc == r.vtoc
  {
    SameBitmap(d, r);
    SameCounters(d, r);
  }

  lemma SectorHeader(d: Disk, nr: nat)
    requires Formed(d) && nr < Limit(d.size)
    ensures SameHeader(d, MarkSec(d, nr)) && SameHeader(d, FreeSec(d, nr))
  {
  }

  lemma {:induction false} WriteLoopHeader(d: Disk, data: seq<byte>, entry: nat, cur: nat)
    requires WellFormed(d) && |data| <= LNK * |AllFree(d)|
    ensures SameHeader(d, WriteLoop(d, data, entry, cur))
    decreases |data|
  {
    if data != [] {
      TakeFree(d);
      SectorHeader(d, FindFree(d));
      if |data| >= LNK {
        WriteFullPuts(d, data[..LNK], entry);
        var mid := WriteFull(d, data[..LNK], entry);
        assert |AllFree(mid)| == |AllFree(d)| - 1;
        WriteLoopHeader(mid, data[LNK..], entry, FindFree(d));
      }
    }
  }

  lemma {:induction false} DeleteHeader(d: Disk, start: nat, chain: seq<nat>)
    requires Formed(d) && start < 1968 && IsChain(d, start, chain) && Distinct(chain)
    requires forall nr :: nr in Elements(chain) ==> nr < Limit(d.size)
    ensures SameHeader(d, DeleteWalk(d, start))
    decreases |chain|
  {
    if chain != [] {
      FirstElement(chain);
      assert start in Elements(chain);
      SectorHeader(WriteSec(ReadSec(d, start).(buf := Zeroed()), start), start);
      var e := Erase(d, start);
      assert SameOutside(d, e, {start});
      ChainUnchanged(d, e, {start}, Link(At(d, start)), chain[1..]);
      DeleteHeader(e, Link(At(d, start)), chain[1..]);
      DeleteStep(d, start);
    }
  }

  lemma OutsideTwice(d: Disk, r: Disk, e: Disk, a: set<nat>, b: set<nat>)
    requires Formed(d) && Formed(r) && Formed(e) && SameOutside(d, r, a) && SameOutside(r, e, b) && b <= a
    ensures SameOutside(d, e, a)
  {
    forall nr: nat | OnDisk(d, nr) && nr !in a ensures At(e, nr) == At(d, nr) {
      assert At(r, nr) == At(d, nr) && OnDisk(r, nr);
    }
  }

  /** Deleting the file that was just written brings the VTOC buffer, its bitmap and its counters,
      back to exactly what they were, and leaves only zeroed sectors where the file was. */
  lemma DeleteUndoesWrite(d: Disk, data: seq<byte>, entry: nat)
    requires WellFormed(d) && data != [] && WriteFile(d, data, entry).Stored?
    ensures var Stored(r, start) := WriteFile(d, data, entry);
            start < 1968 && DeleteWalk(r, start).vtoc == d.vtoc
            && exists changed: set<nat> :: changed <= AllFree(d)
                 && SameOutside(d, DeleteWalk(r, start), changed + {VTOC_SECTOR, VTOC_SECTOR2})
                 && forall nr: nat :: nr in changed ==> OnDisk(r, nr) && At(DeleteWalk(r, start), nr) == Zeroed()
  {
    var Stored(r, start) := WriteFile(d, data, entry);
    var chain := WriteStores(d, data, entry);
    DeleteFrees(r, start, chain);
    CountIsFree(d);
    WriteLoopHeader(d, data, entry, 0);
    DeleteHeader(r, start, chain);
    ErasedAgain(d, r, DeleteWalk(r, start), Elements(chain));
  }

  lemma GivenBack(x: set<nat>, t: set<nat>)
    requires t <= x
    ensures (x - t) + t == x
  {
  }

  lemma HeaderTwice(d: Disk, r: Disk, e: Disk)
    requires Formed(d) && Formed(r) && Formed(e) && SameHeader(d, r) && SameHeader(r, e)
    ensures SameHeader(d, e)
  {
  }

  /** Once the sectors taken are erased the disk is as before, but for their contents and the stored VTOC. */
  lemma ErasedAgain(d: Disk, r: Disk, e: Disk, taken: set<nat>)
    requires WellFormed(d) && Formed(r) && Formed(e) && SameHeader(d, r) && SameHeader(r, e) && Erased(r, e, taken)
    requires taken <= AllFree(d) && AllFree(r) == AllFree(d) - taken
    requires SameOutside(d, r, taken + {VTOC_SECTOR, VTOC_SECTOR2})
    ensures e.vtoc == d.vtoc && SameOutside(d, e, taken + {VTOC_SECTOR, VTOC_SECTOR2})
  {
    GivenBack(AllFree(d), taken);
    HeaderTwice(d, r, e);
    VtocDetermined(d, e);
    OutsideTwice(d, r, e, taken + {VTOC_SECTOR, VTOC_SECTOR2}, taken);
  }

  lemma {:induction false} DistinctSize(chain: seq<nat>)
    requires Distinct(chain)
    ensures |Elements(chain)| == |chain|
    decreases |chain|
  {
    if chain == [] {
      assert Elements(chain) == {};
    } else {
      FirstElement(chain);
      DistinctSize(chain[1..]);
    }
  }

  /** Sectors are conserved: what is no longer free is in the file. */
  lemma SectorsConserved(d: Disk, data: seq<byte>, entry: nat)
    requires WellFormed(d) && data != [] && WriteFile(d, data, entry).Stored?
    ensures |AllFree(WriteFile(d, data, entry).d)| + SectorsFor(|data|) == |AllFree(d)|
  {
    var chain := WriteStores(d, data, entry);
    DistinctSize(chain);
  }

  /** The empty file is the exception: its start sector is one that stays free. */
  lemma EmptyFileOwnsNothing(d: Disk, entry: nat)
    requires WellFormed(d) && AllFree(d) != {}
    ensures var w := WriteFile(d, [], entry);
            w.Stored? && w.d.vtoc == d.vtoc && w.start in AllFree(w.d)
  {
    FindFreeFinds(d);
    CountIsFree(d);
  }
}
