/** ATasm's memory banks in asm.c's own form: buffers overwritten byte by byte, and the scan that saves them. */
module AtasmImageFile {
  import opened Bytes
  import opened AtasmImage

  class MemBank {
    const memmap: array<byte>
    const bitmap: array<byte>
    var offset: int

    ghost predicate Valid() {
      memmap.Length == MEMORY && bitmap.Length == MEMORY / 8 && memmap != bitmap
    }

    /** The occupied addresses with their bytes. */
    ghost function Holds(): Memory
      requires Valid()
      reads memmap, bitmap
    {
      Image(memmap[..], bitmap[..])
    }

    /** `get_bank`, for an identifier not met before. */
    constructor ()
      ensures Valid() && fresh(memmap) && fresh(bitmap) && offset == 0
      ensures Holds() == map[]
    {
      memmap := new byte[MEMORY](_ => 0);
      bitmap := new byte[MEMORY / 8](_ => 0);
      offset := 0;
      new;
      NothingOccupied(memmap[..], bitmap[..]);
    }

    /** The store of `put_byte`. */
    method Store(opc: int, v: byte) returns (overwritten: bool)
      requires Valid() && 0 <= opc < MEMORY
      modifies memmap, bitmap
      ensures Holds() == old(Holds())[opc := v]
      ensures overwritten == (opc in old(Holds()))
    {
      var a := opc / 8;
      ImageAt(memmap[..], bitmap[..]);
      ImageAfterStore(memmap[..], bitmap[..], opc, v);
      memmap[opc] := v;
      overwritten := IsSet(bitmap[a], opc % 8);
      bitmap[a] := SetBit(bitmap[a], opc % 8);
    }

    method Clear()
      requires Valid()
      modifies memmap, bitmap
      ensures Holds() == map[]
    {
      forall i | 0 <= i < memmap.Length {
        memmap[i] := 0;
      }
      forall i | 0 <= i < bitmap.Length {
        bitmap[i] := 0;
      }
      NothingOccupied(memmap[..], bitmap[..]);
    }

    /** The scan of `save_binary` over one bank. */
    method Save() returns (out: seq<byte>, ghost segs: seq<Segment>)
      requires Valid()
      ensures AreRuns(Holds(), segs) && out == Blocks(segs)
    {
      ghost var m := Holds();
      ImageAt(memmap[..], bitmap[..]);
      out, segs := [], [];
      var scan, walk, start, len := 0, 0, 0, 0;
      while scan != bitmap.Length
        invariant 0 <= scan <= bitmap.Length && walk == 8 * scan
        invariant Scanned(m, segs, walk, start, len) && out == Blocks(segs)
        decreases bitmap.Length - scan
      {
        for i := 0 to 8
          invariant walk == 8 * scan + i
          invariant Scanned(m, segs, walk, start, len) && out == Blocks(segs)
        {
          assert walk / 8 == scan && walk % 8 == i;
          start, len, out, segs := ScanBit(IsSet(bitmap[scan], i), walk, start, len, out, m, segs);
          walk := walk + 1;
        }
        scan := scan + 1;
      }
      ScanEnds(m, segs, start, len);
    }

    /** One address of the scan: a run begins, goes on or is written. */
    method ScanBit(occupied: bool, walk: int, start0: int, len0: int, out0: seq<byte>, ghost m: Memory, ghost segs0: seq<Segment>)
      returns (start: int, len: int, out: seq<byte>, ghost segs: seq<Segment>)
      requires Valid() && 0 <= walk < MEMORY && (occupied <==> walk in m)
      requires forall a :: a in m ==> m[a] == memmap[..][a]
      requires Scanned(m, segs0, walk, start0, len0) && out0 == Blocks(segs0)
      ensures Scanned(m, segs, walk + 1, start, len) && out == Blocks(segs)
    {
      start, len, out, segs := start0, len0, out0, segs0;
      if occupied {
        ScanOccupied(m, segs, walk, start, len);
        if len == 0 {
          len := 1;
          start := walk;
        } else {
          len := len + 1;
        }
      } else {
        ScanFree(m, memmap[..], segs, walk, start, len);
        if len != 0 {
          var block := Segment(start, memmap[start..start + len]);
          assert memmap[start..start + len] == memmap[..][start..start + len];
          BlocksSnoc(segs, block);
          out := out + Block(block);
          segs := segs + [block];
          len, start := 0, 0;
        }
      }
    }
  }

  /** What `put_byte` comes to. `BeyondBuffers`: it writes past the two buffers, with whatever effect. */
  datatype Outcome = Stored(overwritten: bool) | AddressUnderflow | AddressOverflow | BeyondBuffers

  /** What becomes of a byte for `opc`, in a bank that holds `m`. */
  function Verdict(opc: int, obj: bool, m: Memory): Outcome {
    if opc < 0 then AddressUnderflow
    else if opc >= MEMORY + 8 then AddressOverflow
    else if obj && opc >= MEMORY then BeyondBuffers
    else Stored(obj && opc in m)
  }

  /** A 16-bit program counter and an offset that `.SET 6` accepts put the byte at `opc`. */
  predicate Reaches(pc: int, offset: int, opc: int) {
    0 <= pc < 65536 && -65535 <= offset <= 65535 && pc + offset == opc
  }

  /** The guards of `put_byte` let through the addresses of the buffers and eight more, which can be reached. */
  lemma GuardAdmitsEightMore(opc: int)
    ensures 0 <= opc && !(opc / 8 > 8192) <==> 0 <= opc < MEMORY + 8
    ensures MEMORY <= opc < MEMORY + 8 ==> exists pc, offset :: Reaches(pc, offset, opc)
  {
    assert MEMORY <= opc < MEMORY + 8 ==> Reaches(0xffff, opc - 0xffff, opc);
  }

  /** The banks and the globals `put_byte` works on. */
  class Assembler {
    var banks: seq<MemBank>
    var activeBank: nat
    var pc: int
    var bsize: int
    const obj: bool
    /** What the banks hold. */
    ghost var images: seq<Memory>

    ghost predicate Separate(i: int, j: int)
      requires 0 <= i < |banks| && 0 <= j < |banks|
      reads this`banks
    {
      banks[i].memmap != banks[j].memmap && banks[i].bitmap != banks[j].bitmap
      && banks[i].memmap != banks[j].bitmap
    }

    ghost function Footprint(): (r: set<object>)
      reads this`banks
      ensures forall i :: 0 <= i < |banks| ==> banks[i].memmap in r && banks[i].bitmap in r
    {
      (set i | 0 <= i < |banks| :: banks[i].memmap as object) + (set i | 0 <= i < |banks| :: banks[i].bitmap as object)
    }

    ghost predicate AllSeparate()
      reads this`banks
    {
      && (forall i :: 0 <= i < |banks| ==> banks[i].Valid())
      && (forall i, j :: 0 <= i < |banks| && 0 <= j < |banks| && i != j ==> Separate(i, j))
    }

    /** The banks hold the images, and `bsize` counts the bytes in them. */
    ghost predicate Counted()
      reads `banks, `images, `bsize, `activeBank, Footprint()
    {
      && activeBank < |banks| == |images| && bsize == Total(images)
      && AllSeparate() && forall i :: 0 <= i < |banks| ==> banks[i].Holds() == images[i]
    }

    ghost predicate Valid()
      reads `banks, `images, `bsize, `activeBank, `pc, Footprint()
    {
      Counted() && 0 <= pc < 65536
    }

    lemma ApartFrom(i: int)
      requires AllSeparate() && 0 <= i < |banks|
      ensures forall j :: 0 <= j < |banks| && j != i ==>
        banks[j].memmap != banks[i].memmap && banks[j].memmap != banks[i].bitmap
        && banks[j].bitmap != banks[i].memmap && banks[j].bitmap != banks[i].bitmap
    {
      forall j | 0 <= j < |banks| && j != i
        ensures banks[j].memmap != banks[i].memmap && banks[j].memmap != banks[i].bitmap
          && banks[j].bitmap != banks[i].memmap && banks[j].bitmap != banks[i].bitmap
      {
        assert Separate(i, j) && Separate(j, i);
      }
    }

    /** `init_asm`: one bank, nothing in it. */
    constructor (obj: bool)
      ensures Valid() && |banks| == 1 && fresh(banks[0].memmap) && fresh(banks[0].bitmap)
      ensures images == [map[]] && this.obj == obj
    {
      var bank := new MemBank();
      banks := [bank];
      activeBank := 0;
      pc := 0;
      bsize := 0;
      this.obj := obj;
      images := [map[]];
      new;
      assert banks[0] == bank && bank.Holds() == images[0];
      NoneOccupied(images);
    }

    /** The store changes what the active bank holds, and no other bank. */
    method StoreActive(opc: int, v: byte) returns (overwritten: bool)
      requires activeBank < |banks| == |images| && 0 <= opc < MEMORY && AllSeparate()
      requires forall i :: 0 <= i < |banks| ==> banks[i].Holds() == images[i]
      modifies banks[activeBank].memmap, banks[activeBank].bitmap
      ensures forall i :: 0 <= i < |banks| ==>
        banks[i].Holds() == if i == activeBank then images[i][opc := v] else images[i]
      ensures overwritten == (opc in images[activeBank])
    {
      ApartFrom(activeBank);
      overwritten := banks[activeBank].Store(opc, v);
    }

    /** What `put_byte` does if an object is to be written. */
    method Occupy(opc: int, v: byte) returns (overwritten: bool)
      requires Counted() && 0 <= opc < MEMORY
      modifies this`bsize, this`images, banks[activeBank].memmap, banks[activeBank].bitmap
      ensures Counted()
      ensures images == old(images)[activeBank := old(images)[activeBank][opc := v]]
      ensures overwritten == (opc in old(images)[activeBank])
    {
      ghost var m := images[activeBank];
      overwritten := StoreActive(opc, v);
      TotalAfterUpdate(images, activeBank, m[opc := v]);
      StoreCounts(m, opc, v);
      images := images[activeBank := m[opc := v]];
      if !overwritten {
        bsize := bsize + 1;
      }
    }

    /** `put_byte`. The buffers end at $FFFF; what is written beyond them is not followed any further. */
    method PutByte(b: int) returns (r: Outcome)
      requires Valid()
      modifies this`pc, this`bsize, this`images
      modifies banks[activeBank].memmap, banks[activeBank].bitmap
      ensures Valid()
      ensures r == Verdict(old(pc + banks[activeBank].offset), obj, old(images[activeBank]))
      ensures pc == if r.Stored? then (old(pc) + 1) % 65536 else old(pc)
      ensures images == if r.Stored? && obj
                        then old(images)[activeBank := old(images[activeBank])[old(pc + banks[activeBank].offset) := Low(b)]]
                        else old(images)
    {
      var opc := pc + banks[activeBank].offset;
      if opc < 0 {
        return AddressUnderflow;
      }
      var a := opc / 8;
      if a > 8192 {
        return AddressOverflow;
      }
      var overwritten := false;
      if obj {
        if opc >= MEMORY {
          return BeyondBuffers;
        }
        overwritten := Occupy(opc, Low(b));
      }
      pc := (pc + 1) % 65536;
      return Stored(overwritten);
    }

    method ClearBank(i: int)
      requires 0 <= i < |banks| && AllSeparate() && forall k :: 0 <= k < i ==> banks[k].Holds() == map[]
      modifies banks[i].memmap, banks[i].bitmap
      ensures forall k :: 0 <= k <= i ==> banks[k].Holds() == map[]
    {
      ApartFrom(i);
      banks[i].Clear();
    }

    method ClearBuffers()
      requires AllSeparate()
      modifies Footprint()
      ensures forall k :: 0 <= k < |banks| ==> banks[k].Holds() == map[]
    {
      for i := 0 to |banks|
        invariant forall k :: 0 <= k < i ==> banks[k].Holds() == map[]
      {
        ClearBank(i);
      }
    }

    /** Empty all banks, as `clear_banks` does before each pass. */
    method ClearBanks()
      requires Valid()
      modifies this`bsize, this`images, Footprint()
      ensures Valid() && bsize == 0
      ensures images == seq(|banks|, _ => map[])
    {
      ClearBuffers();
      assert AllSeparate();
      bsize := 0;
      images := seq(|banks|, _ => map[]);
      NoneOccupied(images);
    }

    /** The file of `save_binary`: the header, then the runs of the banks from the active one on. */
    method SaveBanks() returns (out: seq<byte>, ghost segs: seq<seq<Segment>>)
      requires Valid()
      ensures AreRunsOf(images[activeBank..], segs)
      ensures out == SavedWord(0xffff) + BlocksOf(segs)
    {
      ghost var ms := images[activeBank..];
      out, segs := SavedWord(0xffff), [];
      var walkBank := activeBank;
      while walkBank < |banks|
        invariant activeBank <= walkBank <= |banks| && |segs| == walkBank - activeBank
        invariant AreRunsOf(ms[..|segs|], segs)
        invariant out == SavedWord(0xffff) + BlocksOf(segs)
      {
        var blocks, runs := banks[walkBank].Save();
        RunsSnoc(ms, |segs|, segs, runs);
        FileSnoc(out, segs, runs);
        out := out + blocks;
        segs := segs + [runs];
        walkBank := walkBank + 1;
      }
      assert ms[..|segs|] == ms;
    }

    /** `save_binary`: loading the file puts the saved part of each bank into memory, one after the other. */
    method SaveBinary() returns (out: seq<byte>)
      requires Valid()
      ensures forall before :: Load(out, before) == Loaded(Restored(before, images[activeBank..]))
    {
      ghost var segs;
      out, segs := SaveBanks();
      forall before ensures Load(out, before) == Loaded(Restored(before, images[activeBank..])) {
        SavedFileLoads(images[activeBank..], segs, before);
      }
    }
  }

  lemma {:induction false} BlocksOfSnoc(segs: seq<seq<Segment>>, runs: seq<Segment>)
    ensures BlocksOf(segs + [runs]) == BlocksOf(segs) + Blocks(runs)
    decreases |segs|
  {
    if segs == [] {
      assert segs + [runs] == [runs] && [runs][1..] == [];
      assert Blocks(runs) + BlocksOf([]) == Blocks(runs);
    } else {
      BlocksOfSnoc(segs[1..], runs);
      var first, middle, last := Blocks(segs[0]), BlocksOf(segs[1..]), Blocks(runs);
      assert first + (middle + last) == first + middle + last;
      assert (segs + [runs])[0] == segs[0] && (segs + [runs])[1..] == segs[1..] + [runs];
    }
  }

  lemma FileSnoc(out: seq<byte>, segs: seq<seq<Segment>>, runs: seq<Segment>)
    requires out == SavedWord(0xffff) + BlocksOf(segs)
    ensures out + Blocks(runs) == SavedWord(0xffff) + BlocksOf(segs + [runs])
  {
    BlocksOfSnoc(segs, runs);
    var head, middle, last := SavedWord(0xffff), BlocksOf(segs), Blocks(runs);
    assert (head + middle) + last == head + (middle + last);
  }
}
