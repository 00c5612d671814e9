/** The disk image in dimage.c's own form: an open image with a sector buffer and a VTOC buffer that
    are overwritten in place. Each method is proved to do what the functions on `Disk` say. */
module AtasmDiskImage {
  import opened Bytes
  import opened AtasmDisk
  import opened AtasmDiskFiles

  class DiskImg {
    const image: array<Sector>
    const secbuf: array<byte>
    const vtocsec: array<byte>

    ghost predicate Valid() {
      (image.Length == SS_SD || image.Length == SS_ED) && secbuf.Length == SECSIZE && vtocsec.Length == 256
      && secbuf != vtocsec && image as object != secbuf && image as object != vtocsec
    }

    ghost function Now(): (d: Disk)
      requires Valid()
      reads image, secbuf, vtocsec
      ensures Formed(d)
    {
      Disk(image.Length, image[..], vtocsec[..], secbuf[..])
    }

    /** `get_new_disk` on an image of the right size: cleared buffers, then the VTOC is read. */
    constructor (sectors: seq<Sector>)
      requires |sectors| == SS_SD || |sectors| == SS_ED
      ensures Valid() && fresh(image) && fresh(secbuf) && fresh(vtocsec)
      ensures Now().sectors == sectors && Now().vtoc == AtasmDiskFiles.ReadVtoc(Now()) && Now().buf == Zeroed()
    {
      image := new Sector[|sectors|](i requires 0 <= i < |sectors| => sectors[i]);
      secbuf := new byte[SECSIZE](_ => 0);
      vtocsec := new byte[256](_ => 0);
      new;
      ReadVtoc();
    }

    method ReadVtoc()
      requires Valid() && vtocsec[..] == seq(256, _ => 0)
      modifies vtocsec
      ensures Now() == old(Now()).(vtoc := AtasmDiskFiles.ReadVtoc(old(Now())))
    {
      var first := image[VTOC_SECTOR - 1];
      forall i | 0 <= i < SECSIZE {
        vtocsec[i] := first[i];
      }
      if image.Length == SS_ED {
        var buf := image[VTOC_SECTOR2 - 1];
        forall i | 0 <= i < 44 {
          vtocsec[100 + i] := buf[84 + i];
        }
      }
    }

    method WriteVtoc()
      requires Valid()
      modifies image
      ensures Now() == AtasmDiskFiles.WriteVtoc(old(Now()))
    {
      if image.Length == SS_ED {
        var second: Sector := vtocsec[16..144];
        image[VTOC_SECTOR2 - 1] := second;
        var first: Sector := vtocsec[..100] + seq(27, _ => 0) + [vtocsec[127]];
        image[VTOC_SECTOR - 1] := first;
      } else {
        image[VTOC_SECTOR - 1] := vtocsec[..SECSIZE];
      }
    }

    method ReadSec(nr: int)
      requires Valid()
      modifies secbuf
      ensures Now() == AtasmDisk.ReadSec(old(Now()), nr)
    {
      if nr > image.Length || nr < 1 {
        return;
      }
      var s := image[nr - 1];
      forall i | 0 <= i < SECSIZE {
        secbuf[i] := s[i];
      }
    }

    method WriteSec(nr: int)
      requires Valid()
      modifies image
      ensures Now() == AtasmDisk.WriteSec(old(Now()), nr)
    {
      if nr > image.Length || nr < 1 {
        return;
      }
      image[nr - 1] := secbuf[..];
    }

    method FindFreeSec() returns (nr: nat)
      requires Valid()
      ensures nr == FindFree(Now())
    {
      var len := if image.Length == SS_ED then 138 else 100;
      var x := 10;
      while x < len
        invariant 10 <= x <= len && FirstNonzero(vtocsec[..], x, len) == FirstNonzero(vtocsec[..], 10, len)
      {
        if vtocsec[x] != 0 {
          break;
        }
        x := x + 1;
      }
      nr := (x - 10) * 8 + PickBit(vtocsec[x]);
    }

    method AddToCounter(i: nat, delta: int)
      requires Valid() && i + 1 < 256
      modifies vtocsec
      ensures vtocsec[..] == Bump(old(vtocsec[..]), i, delta)
    {
      var secsfree := Word(vtocsec[i], vtocsec[i + 1]) + delta;
      vtocsec[i] := Low(secsfree);
      vtocsec[i + 1] := High(secsfree);
    }

    method MarkSec(nr: nat)
      requires Valid() && nr < 1968
      modifies vtocsec
      ensures Now() == AtasmDisk.MarkSec(old(Now()), nr)
    {
      var b := nr / 8;
      vtocsec[10 + b] := ClearBit(vtocsec[10 + b], nr % 8);
      if nr < 720 {
        AddToCounter(3, -1);
      } else if image.Length == SS_ED {
        AddToCounter(138, -1);
      }
    }

    method FreeSec(nr: nat)
      requires Valid() && nr < 1968
      modifies vtocsec
      ensures Now() == AtasmDisk.FreeSec(old(Now()), nr)
    {
      var b := nr / 8;
      vtocsec[10 + b] := SetBit(vtocsec[10 + b], nr % 8);
      if nr < 720 {
        AddToCounter(3, 1);
      } else if image.Length == SS_ED {
        AddToCounter(138, 1);
      }
    }

    /** `memcpy` to the start of the sector buffer. */
    method Fill(data: seq<byte>)
      requires Valid() && |data| <= LNK
      modifies secbuf
      ensures secbuf[..] == data + old(secbuf[|data|..])
    {
      forall i | 0 <= i < |data| {
        secbuf[i] := data[i];
      }
    }

    /** The walk of `delete_file`. The measure shows that it ends on every image, cyclic chains included. A
        start sector from 1968 on, of which no link can be, has its bit beyond the VTOC buffer, and is not
        followed. */
    method DeleteFile(startsec: nat) returns (inside: bool)
      requires Valid()
      modifies image, secbuf, vtocsec
      ensures inside == (startsec < 1968)
      ensures Now() == if startsec < 1968 then DeleteWalk(old(Now()), startsec) else old(Now())
    {
      inside := startsec < 1968;
      if !inside {
        return;
      }
      var i: nat, secnum: nat := startsec, startsec;
      while i != 0
        invariant secnum == i < 1968
        invariant DeleteWalk(Now(), i) == DeleteWalk(old(Now()), startsec)
        decreases if Now().buf == Zeroed() then 0 else 1, |Linked(Now())|, i
      {
        i := EraseSector(secnum);
        secnum := i;
      }
    }

    /** One sector of a deleted file: its link is taken, then it is zeroed and freed. */
    method EraseSector(secnum: nat) returns (link: nat)
      requires Valid() && secnum < 1968
      modifies image, secbuf, vtocsec
      ensures Now() == Erase(old(Now()), secnum)
      ensures link == Link(AtasmDisk.ReadSec(old(Now()), secnum).buf)
    {
      ReadSec(secnum);
      link := secbuf[LNK + 1] + (secbuf[LNK] % 4) as int * 256;
      Fill(seq(LNK, _ => 0));
      secbuf[LNK], secbuf[LNK + 1], secbuf[LNK + 2] := 0, 0, 0;
      assert secbuf[..] == Zeroed();
      WriteSec(secnum);
      FreeSec(secnum);
    }

    method WriteFullSector(data: seq<byte>, entry: nat) returns (cursec: nat)
      requires Valid() && |data| == LNK
      modifies image, secbuf, vtocsec
      ensures cursec == FindFree(old(Now())) && Now() == WriteFull(old(Now()), data, entry)
    {
      cursec := FindFreeSec();
      MarkSec(cursec);
      var nextsec := FindFreeSec();
      Fill(data);
      secbuf[LNK] := Low(entry * 4 + High(nextsec) % 4);
      secbuf[LNK + 1] := Low(nextsec);
      secbuf[LNK + 2] := LNK;
      assert secbuf[..] == FullSector(data, entry, nextsec);
      WriteSec(cursec);
    }

    method WriteLastSector(data: seq<byte>, entry: nat)
      requires Valid() && 0 < |data| < LNK
      modifies image, secbuf, vtocsec
      ensures Now() == WriteLast(old(Now()), data, entry)
    {
      var cursec := FindFreeSec();
      MarkSec(cursec);
      Fill(data);
      secbuf[LNK] := Low(entry * 4);
      secbuf[LNK + 1] := 0;
      secbuf[LNK + 2] := |data|;
      assert secbuf[..] == LastSector(old(secbuf[..]), data, entry);
      WriteSec(cursec);
    }

    method CutLink(entry: nat, cursec: nat)
      requires Valid()
      modifies image, secbuf
      ensures Now() == AtasmDisk.WriteSec(old(Now()).(buf := EndLink(old(Now()).buf, entry)), cursec)
    {
      secbuf[LNK] := Low(entry * 4);
      secbuf[LNK + 1] := 0;
      assert secbuf[..] == EndLink(old(secbuf[..]), entry);
      WriteSec(cursec);
    }

    /** What follows the loop: the rest of the data, or the cutting of the last link. */
    method WriteTail(data: seq<byte>, entry: nat, cursec: nat)
      requires Valid() && |data| < LNK
      modifies image, secbuf, vtocsec
      ensures Now() == WriteLoop(old(Now()), data, entry, cursec)
    {
      if data != [] {
        WriteLastSector(data, entry);
      } else {
        CutLink(entry, cursec);
      }
    }

    /** The write loop: full sectors, then the rest of the data or the cutting of the last link. */
    method WriteData(data: seq<byte>, entry: nat)
      requires Valid()
      modifies image, secbuf, vtocsec
      ensures Now() == WriteLoop(old(Now()), data, entry, 0)
    {
      var x: nat, cursec: nat := 0, 0;
      while x < |data| / LNK
        invariant 0 <= x <= |data| / LNK
        invariant WriteLoop(Now(), data[x * LNK..], entry, cursec) == WriteLoop(old(Now()), data, entry, 0)
      {
        ghost var d, rest := Now(), data[x * LNK..];
        ghost var last := cursec;
        cursec := WriteFullSector(data[x * LNK..(x + 1) * LNK], entry);
        assert rest[..LNK] == data[x * LNK..(x + 1) * LNK] && rest[LNK..] == data[(x + 1) * LNK..];
        assert WriteLoop(d, rest, entry, last) == WriteLoop(Now(), rest[LNK..], entry, cursec);
        x := x + 1;
      }
      WriteTail(data[x * LNK..], entry, cursec);
    }

    /** `write_xfd_file` from the check for room on; `None` when the file does not fit. */
    method WriteFile(data: seq<byte>, entry: nat) returns (ok: bool, startsec: nat)
      requires Valid()
      modifies image, secbuf, vtocsec
      ensures match AtasmDiskFiles.WriteFile(old(Now()), data, entry)
              case NoRoom => !ok && Now() == old(Now())
              case Stored(d, start) => ok && Now() == d && startsec == start
    {
      var secsfree := Word(vtocsec[3], vtocsec[4]);
      if image.Length == SS_ED {
        secsfree := secsfree + Word(vtocsec[138], vtocsec[139]);
      }
      startsec := 0;
      if secsfree * LNK < |data| {
        return false, startsec;
      }
      startsec := FindFreeSec();
      WriteData(data, entry);
      WriteVtoc();
      ok := true;
    }
  }
}
