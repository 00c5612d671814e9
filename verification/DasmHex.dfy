/** DASM's Intel HEX printer (ftohex.c), and a decoder for the format it prints. */
module DasmHex {
  import opened Bytes

  const PERLINE: int := 16

  /** A stretch of data for consecutive addresses; an address is printed modulo 65536. */
  datatype Chunk = Chunk(org: int, data: seq<byte>)

  /** A byte at an address. */
  datatype Cell = Cell(addr: int, value: byte)

  /** The cells of a chunk, in order. */
  function CellsOf(c: Chunk): (s: seq<Cell>)
    ensures |s| == |c.data|
    decreases |c.data|
  {
    if c.data == [] then []
    else [Cell(c.org % 65536, c.data[0])] + CellsOf(Chunk(c.org + 1, c.data[1..]))
  }

  function Listing(chunks: seq<Chunk>): seq<Cell>
    decreases |chunks|
  {
    if chunks == [] then [] else CellsOf(chunks[0]) + Listing(chunks[1..])
  }

  // ---------------------------------------------------------------- printing

  function Sum(s: seq<byte>): int
    decreases |s|
  {
    if s == [] then 0 else s[0] + Sum(s[1..])
  }

  /** The character for a digit. */
  function Digit(d: int): char
    requires 0 <= d < 16
  {
    "0123456789ABCDEF"[d]
  }

  /** A byte in two digits, as `puth` prints it. */
  function Puth(c: byte): (s: string)
    ensures |s| == 2
  {
    [Digit(c / 16), Digit(c % 16)]
  }

  function Hex(s: seq<byte>): (t: string)
    ensures |t| == 2 * |s|
    decreases |s|
  {
    if s == [] then [] else Puth(s[0]) + Hex(s[1..])
  }

  /** A record's bytes up to its checksum: count, address, type, data. */
  function Fields(kind: byte, c: Chunk): seq<byte>
    requires |c.data| < 256
  {
    [|c.data|, High(c.org), Low(c.org), kind] + c.data
  }

  /** The byte that brings the sum of a record to 0 modulo 256. */
  function Checksum(s: seq<byte>): byte {
    -Sum(s) % 256
  }

  function Record(kind: byte, c: Chunk): string
    requires |c.data| < 256
  {
    var s := Fields(kind, c);
    ":" + Hex(s + [Checksum(s)]) + "\r\n"
  }

  /** What one record holds. */
  type Line = c: Chunk | 1 <= |c.data| <= 16 witness Chunk(0, [0])

  function DataRecord(c: Line): string {
    Record(0, c)
  }

  /** The lines printed one after the other. */
  function Printed(print1: Line -> string, lines: seq<Line>): string
    decreases |lines|
  {
    if lines == [] then [] else print1(lines[0]) + Printed(print1, lines[1..])
  }

  function Records(lines: seq<Line>): string {
    Printed(DataRecord, lines)
  }

  // ---------------------------------------------------------------- the decoder

  datatype Decoded = Cells(cells: seq<Cell>) | Bad

  /** The value of a hexadecimal digit; 16 if it is none. */
  function DigitValue(c: char): (v: int)
    ensures 0 <= v <= 16
  {
    if '0' <= c <= '9' then c as int - '0' as int
    else if 'A' <= c <= 'F' then c as int - 'A' as int + 10
    else 16
  }

  /** Pairs of digits. */
  predicate IsHex(t: string)
    decreases |t|
  {
    t == [] || (|t| >= 2 && DigitValue(t[0]) < 16 && DigitValue(t[1]) < 16 && IsHex(t[2..]))
  }

  function FromHex(t: string): (s: seq<byte>)
    requires IsHex(t)
    ensures 2 * |s| == |t|
    decreases |t|
  {
    if t == [] then [] else [16 * DigitValue(t[0]) + DigitValue(t[1])] + FromHex(t[2..])
  }

  /** The number of characters of a record with `n` bytes of data. */
  function RecordLength(n: int): int {
    1 + 2 * (n + 5) + 2
  }

  datatype Parsed = Fields(bytes: seq<byte>, rest: string) | Unreadable

  /** Read the bytes of a record of `l` characters. */
  function ReadBytes(text: string, l: int): (r: Parsed)
    requires l >= RecordLength(0)
    ensures r.Fields? ==> |text| >= l && 2 * |r.bytes| == l - 3 && Sum(r.bytes) % 256 == 0
    ensures r.Fields? ==> IsHex(text[1..l - 2]) && r == Parsed.Fields(FromHex(text[1..l - 2]), text[l..])
  {
    if |text| < l || text[l - 2..l] != "\r\n" || !IsHex(text[1..l - 2]) then Unreadable
    else
      var s := FromHex(text[1..l - 2]);
      if Sum(s) % 256 != 0 then Unreadable else Parsed.Fields(s, text[l..])
  }

  /** Read one record: a colon, the count, the rest of the fields in hexadecimal, and a line end. */
  function ReadRecord(text: string): (r: Parsed)
    ensures r.Fields? ==> |r.bytes| >= 5 && |r.bytes| == r.bytes[0] as int + 5 && |r.rest| < |text|
  {
    if |text| < RecordLength(0) || text[0] != ':' || !IsHex(text[1..3]) then Unreadable
    else
      var n := FromHex(text[1..3])[0];
      var r := ReadBytes(text, RecordLength(n));
      assert r.Fields? ==> r.bytes[0] == n;
      r
  }

  /** Read records up to the end record, which must end the text; a type other than data and end is bad. */
  function Decode(text: string): Decoded
    decreases |text|
  {
    match ReadRecord(text)
    case Unreadable => Bad
    case Fields(s, rest) =>
      if s[3] == 1 && s[0] == 0 && rest == [] then Cells([])
      else if s[3] != 0 then Bad
      else
        match Decode(rest)
        case Bad => Bad
        case Cells(cells) => Cells(CellsOf(Chunk(Word(s[2], s[1]), s[4..4 + s[0] as int])) + cells)
  }

  // ---------------------------------------------------------------- decoding undoes printing

  lemma PuthDigits(c: byte)
    ensures IsHex(Puth(c)) && 16 * DigitValue(Puth(c)[0]) + DigitValue(Puth(c)[1]) == c
  {
    assert forall d :: 0 <= d < 16 ==> DigitValue(Digit(d)) == d;
  }

  lemma {:induction false} HexDigits(s: seq<byte>)
    ensures IsHex(Hex(s)) && FromHex(Hex(s)) == s
    decreases |s|
  {
    if s != [] {
      PuthDigits(s[0]);
      HexDigits(s[1..]);
      assert Hex(s)[2..] == Hex(s[1..]);
    }
  }

  lemma {:induction false} SumSnoc(s: seq<byte>, b: byte)
    ensures Sum(s + [b]) == Sum(s) + b
    decreases |s|
  {
    if s == [] {
      assert [b][1..] == [];
    } else {
      SumSnoc(s[1..], b);
      assert (s + [b])[1..] == s[1..] + [b];
    }
  }

  /** The bytes of a record, checksum included, sum to 0 modulo 256. */
  lemma ChecksumBalances(s: seq<byte>)
    ensures Sum(s + [Checksum(s)]) % 256 == 0
  {
    SumSnoc(s, Checksum(s));
  }

  /** Cells depend on the address only modulo 65536. */
  lemma {:induction false} CellsWrap(org: int, other: int, data: seq<byte>)
    requires org % 65536 == other % 65536
    ensures CellsOf(Chunk(org, data)) == CellsOf(Chunk(other, data))
    decreases |data|
  {
    if data != [] {
      assert (org + 1) % 65536 == (other + 1) % 65536;
      CellsWrap(org + 1, other + 1, data[1..]);
    }
  }

  lemma WordOfOrigin(org: int)
    ensures Word(Low(org), High(org)) == org % 65536
  {
  }

  lemma PuthHex(c: byte)
    ensures IsHex(Puth(c)) && FromHex(Puth(c)) == [c]
  {
    PuthDigits(c);
    assert Puth(c)[2..] == [];
  }

  lemma HexStarts(t: seq<byte>)
    requires t != []
    ensures Hex(t)[..2] == Puth(t[0])
  {
  }

  lemma LineParts(h: string, rest: string)
    requires |h| >= 2
    ensures var text := ":" + h + "\r\n" + rest;
      && |text| >= |h| + 3 && text[0] == ':' && text[1..3] == h[..2] && text[1..|h| + 1] == h
      && text[|h| + 1..|h| + 3] == "\r\n" && text[|h| + 3..] == rest
  {
  }

  lemma ReadBytesOf(text: string, h: string, t: seq<byte>, l: int)
    requires |h| == 2 * |t| && IsHex(h) && FromHex(h) == t && |t| >= 5 && Sum(t) % 256 == 0
    requires l == |h| + 3 <= |text| && text[1..l - 2] == h && text[l - 2..l] == "\r\n"
    ensures ReadBytes(text, l) == Parsed.Fields(t, text[l..])
  {
  }

  lemma ReadCounted(text: string, t: seq<byte>, l: int)
    requires |t| >= 5 && |t| - 5 == t[0] as int && l == RecordLength(t[0]) <= |text|
    requires text[0] == ':' && IsHex(text[1..3]) && FromHex(text[1..3]) == [t[0]]
    requires ReadBytes(text, l) == Parsed.Fields(t, text[l..])
    ensures ReadRecord(text) == Parsed.Fields(t, text[l..])
  {
  }

  lemma ReadLine(h: string, t: seq<byte>, rest: string)
    requires |h| == 2 * |t| && IsHex(h) && FromHex(h) == t
    requires |t| >= 5 && |t| - 5 == t[0] as int && Sum(t) % 256 == 0
    requires IsHex(h[..2]) && FromHex(h[..2]) == [t[0]]
    ensures ReadRecord(":" + h + "\r\n" + rest) == Parsed.Fields(t, rest)
  {
    var text, l := ":" + h + "\r\n" + rest, |h| + 3;
    LineParts(h, rest);
    ReadBytesOf(text, h, t, l);
    ReadCounted(text, t, l);
  }

  /** Reading a printed record gives its bytes and what follows. */
  lemma ReadPrinted(t: seq<byte>, rest: string)
    requires |t| >= 5 && |t| - 5 == t[0] as int && Sum(t) % 256 == 0
    ensures ReadRecord(":" + Hex(t) + "\r\n" + rest) == Parsed.Fields(t, rest)
  {
    HexDigits(t);
    HexStarts(t);
    PuthHex(t[0]);
    ReadLine(Hex(t), t, rest);
  }

  /** The cells of a line in front of what was decoded from the lines after it. */
  function Extend(c: Line, d: Decoded): Decoded {
    match d
    case Bad => Bad
    case Cells(cells) => Cells(CellsOf(c) + cells)
  }

  lemma DecodeRecord(c: Line, rest: string)
    ensures Decode(DataRecord(c) + rest) == Extend(c, Decode(rest))
  {
    var s := Fields(0, c);
    var t := s + [Checksum(s)];
    ChecksumBalances(s);
    ReadPrinted(t, rest);
    WordOfOrigin(c.org);
    CellsWrap(c.org % 65536, c.org, c.data);
    assert t[1] == High(c.org) && t[2] == Low(c.org) && t[3] == 0 && t[4..4 + |c.data|] == c.data;
  }

  const LAST: seq<byte> := [0, 0, 0, 1, 255]

  /** The end record is the one `convert` prints. */
  lemma EndRecord()
    ensures Record(1, Chunk(0, [])) == ":" + Hex(LAST) + "\r\n" == ":00000001FF\r\n"
  {
    var s: seq<byte> := [0, 0, 0, 1];
    assert Fields(1, Chunk(0, [])) == s;
    assert Sum(s) == 1 && Checksum(s) == 255;
    assert s + [255] == LAST;
    assert Hex(LAST) == "00000001FF";
  }

  lemma DecodeEnd()
    ensures Decode(Record(1, Chunk(0, []))) == Cells([])
  {
    EndRecord();
    assert Sum(LAST) == 256;
    ReadPrinted(LAST, []);
    var text := Record(1, Chunk(0, []));
    assert text + [] == text;
  }

  lemma {:induction false} DecodeRecords(decode: string -> Decoded, print1: Line -> string, lines: seq<Line>, rest: string)
    requires forall c, r :: decode(print1(c) + r) == Extend(c, decode(r))
    requires decode(rest) == Cells([])
    ensures decode(Printed(print1, lines) + rest) == Cells(Listing(lines))
    decreases |lines|
  {
    if lines == [] {
      assert Printed(print1, lines) + rest == rest;
    } else {
      var others := Printed(print1, lines[1..]) + rest;
      DecodeRecords(decode, print1, lines[1..], rest);
      assert Printed(print1, lines) + rest == print1(lines[0]) + others;
      assert decode(print1(lines[0]) + others) == Extend(lines[0], decode(others));
    }
  }

  /** Decoding what is printed gives the cells of all records, in order. */
  lemma DecodeInvertsPrint(lines: seq<Line>, end: string)
    requires end == ":00000001FF\r\n"
    ensures Decode(Records(lines) + end) == Cells(Listing(lines))
  {
    forall c, r ensures Decode(DataRecord(c) + r) == Extend(c, Decode(r)) {
      DecodeRecord(c, r);
    }
    EndRecord();
    DecodeEnd();
    DecodeRecords(Decode, DataRecord, lines, end);
  }

  // ---------------------------------------------------------------- the input file

  /** A file of `org`, `length`, data segments, up to the end or a last odd byte. */
  predicate WholeSegments(file: seq<byte>)
    decreases |file|
  {
    |file| < 2
    || (|file| >= 4 && |file| >= 4 + Word(file[2], file[3]) && WholeSegments(file[4 + Word(file[2], file[3])..]))
  }

  function Segments(file: seq<byte>): seq<Chunk>
    requires WholeSegments(file)
    decreases |file|
  {
    if |file| < 2 then []
    else
      var n := Word(file[2], file[3]);
      [Chunk(Word(file[0], file[1]), file[4..4 + n])] + Segments(file[4 + n..])
  }

  /** The files `convert` can read: only format 2 asks for anything. */
  predicate Readable(format: int, file: seq<byte>) {
    1 <= format <= 3 && (format == 2 ==> |file| >= 2 && WholeSegments(file))
  }

  /** What a file holds: an origin and data, segments, or data for address 0. */
  function Chunks(format: int, file: seq<byte>): seq<Chunk>
    requires Readable(format, file)
  {
    if format == 2 then Segments(file)
    else if format == 3 then [Chunk(0, file)]
    else if |file| < 2 then []
    else [Chunk(Word(file[0], file[1]), file[2..])]
  }

  // ---------------------------------------------------------------- convert

  lemma {:induction false} HexSnoc(s: seq<byte>, b: byte)
    ensures Hex(s + [b]) == Hex(s) + Puth(b)
    decreases |s|
  {
    if s == [] {
      assert [b][1..] == [];
    } else {
      HexSnoc(s[1..], b);
      assert (s + [b])[1..] == s[1..] + [b];
    }
  }

  lemma {:induction false} PrintedSnoc(print1: Line -> string, lines: seq<Line>, c: Line)
    ensures Printed(print1, lines + [c]) == Printed(print1, lines) + print1(c)
    decreases |lines|
  {
    if lines == [] {
      assert [c][1..] == [];
    } else {
      PrintedSnoc(print1, lines[1..], c);
      assert (lines + [c])[1..] == lines[1..] + [c];
    }
  }

  lemma {:induction false} ListingJoin(a: seq<Chunk>, b: seq<Chunk>)
    ensures Listing(a + b) == Listing(a) + Listing(b)
    decreases |a|
  {
    if a == [] {
      assert a + b == b;
    } else {
      ListingJoin(a[1..], b);
      assert (a + b)[0] == a[0] && (a + b)[1..] == a[1..] + b;
      Associate(CellsOf(a[0]), Listing(a[1..]), Listing(b));
    }
  }

  lemma {:induction false} CellsSplit(org: int, data: seq<byte>, k: nat)
    requires k <= |data|
    ensures CellsOf(Chunk(org, data)) == CellsOf(Chunk(org, data[..k])) + CellsOf(Chunk(org + k, data[k..]))
    decreases k
  {
    if k > 0 {
      CellsSplit(org + 1, data[1..], k - 1);
      assert data[..k][1..] == data[1..][..k - 1] && data[1..][k - 1..] == data[k..];
      Associate([Cell(org % 65536, data[0])], CellsOf(Chunk(org + 1, data[1..][..k - 1])), CellsOf(Chunk(org + k, data[k..])));
    } else {
      assert data[0..] == data;
    }
  }

  /** The first four bytes of a data record. */
  function Head(n: int, org: int): seq<byte>
    requires 0 <= n < 256
  {
    [n, High(org), Low(org), 0]
  }

  lemma HexOfHead(n: int, org: int)
    requires 0 <= n < 256
    ensures Hex(Head(n, org)) == Puth(n) + Puth(High(org)) + Puth(Low(org)) + Puth(0)
    ensures Sum(Head(n, org)) == n + High(org) + Low(org)
  {
    var count: seq<byte> := [n];
    assert count == [] + [n];
    HexSnoc([], n);
    SumSnoc([], n);
    HexSnoc(count, High(org));
    SumSnoc(count, High(org));
    HexSnoc(count + [High(org)], Low(org));
    SumSnoc(count + [High(org)], Low(org));
    HexSnoc(count + [High(org)] + [Low(org)], 0);
    SumSnoc(count + [High(org)] + [Low(org)], 0);
    assert Head(n, org) == count + [High(org)] + [Low(org)] + [0];
  }

  /** Print a data byte and add it to the checksum. */
  method PutData(out: string, chk: int, b: byte, ghost s: seq<byte>) returns (text: string, sum: int)
    requires out == ":" + Hex(s) && chk == Sum(s) % 256
    ensures text == ":" + Hex(s + [b]) && sum == Sum(s + [b]) % 256
  {
    HexSnoc(s, b);
    SumSnoc(s, b);
    sum := (chk + b) % 256;
    text := out + Puth(b);
  }

  lemma NegateModulo(x: int, chk: int)
    requires chk == x % 256
    ensures -chk % 256 == -x % 256
  {
  }

  lemma RecordEnds(org: int, buf: seq<byte>, out: string, chk: int)
    requires |buf| < 256 && out == ":" + Hex(Fields(0, Chunk(org, buf)))
    requires chk == Sum(Fields(0, Chunk(org, buf))) % 256
    ensures out + Puth(-chk % 256) + "\r\n" == Record(0, Chunk(org, buf))
  {
    var s := Fields(0, Chunk(org, buf));
    NegateModulo(Sum(s), chk);
    HexSnoc(s, Checksum(s));
    assert out + Puth(Checksum(s)) == ":" + (Hex(s) + Puth(Checksum(s)));
  }

  /** The bytes of a record: the count, the address with its high byte first, type 0, the data. */
  lemma RecordBytes(org: int, data: seq<byte>)
    requires 1 <= |data| <= 16
    ensures var s: seq<byte> := [|data|, org / 256 % 256, org % 256, 0] + data;
            Record(0, Chunk(org, data)) == ":" + Hex(s + [-Sum(s) % 256]) + "\r\n"
  {
  }

  lemma HeadSum(idx: int, org: int)
    ensures (idx + org / 256 + org % 256) % 256 == (idx + High(org) + Low(org)) % 256
  {
  }

  /** The colon, the count, the origin and the two zeros of the type. */
  method PutHead(idx: int, org: int) returns (out: string, chk: int)
    requires 0 <= idx < 256 && org >= 0
    ensures out == ":" + Hex(Head(idx, org)) && chk == Sum(Head(idx, org)) % 256
  {
    HexOfHead(idx, org);
    HeadSum(idx, org);
    assert Puth(0) == "00";
    out := ":" + (Puth(idx) + Puth(High(org)) + Puth(Low(org)) + "00");
    chk := (idx + org / 256 + org % 256) % 256;
  }

  /** The inside of `convert`'s loop: one record, checksummed while it is printed. */
  method PutRecord(org: int, buf: seq<byte>) returns (out: string)
    requires 1 <= |buf| <= PERLINE && org >= 0
    ensures out == Record(0, Chunk(org, buf))
    ensures var s: seq<byte> := [|buf|, org / 256 % 256, org % 256, 0] + buf;
            out == ":" + Hex(s + [-Sum(s) % 256]) + "\r\n"
  {
    RecordBytes(org, buf);
    ghost var head, s := Head(|buf|, org), Head(|buf|, org);
    var idx := |buf|;
    var chk;
    out, chk := PutHead(idx, org);
    for i := 0 to idx
      invariant s == head + buf[..i]
      invariant out == ":" + Hex(s) && chk == Sum(s) % 256
    {
      out, chk := PutData(out, chk, buf[i], s);
      s := s + [buf[i]];
    }
    assert s == Fields(0, Chunk(org, buf));
    RecordEnds(org, buf, out, chk);
    out := out + Puth(-chk % 256) + "\r\n";
  }

  const UINT: int := 0x1_0000_0000

  /** A segment cut into lines: 16 bytes each, and what is left on the last one; the origin is an
      `unsigned int`. */
  function Cut(c: Chunk): seq<Line>
    decreases |c.data|
  {
    if c.data == [] then []
    else
      var k := if |c.data| > 16 then 16 else |c.data|;
      [Chunk(c.org, c.data[..k])] + Cut(Chunk((c.org + k) % 0x1_0000_0000, c.data[k..]))
  }

  function CutAll(chunks: seq<Chunk>): seq<Line> {
    if chunks == [] then [] else Cut(chunks[0]) + CutAll(chunks[1..])
  }

  /** There are ceil(n/16) lines. */
  lemma {:induction false} CutCount(c: Chunk)
    ensures |Cut(c)| == (|c.data| + 15) / 16
    decreases |c.data|
  {
    if |c.data| > 16 {
      CutCount(Chunk((c.org + 16) % 0x1_0000_0000, c.data[16..]));
    }
  }

  /** The bytes of line `i`: 16 of them or all that are left. */
  function Slice(data: seq<byte>, i: nat): seq<byte>
    requires 16 * i <= |data|
  {
    data[16 * i..if 16 * i + 16 <= |data| then 16 * i + 16 else |data|]
  }

  lemma SliceBehind(data: seq<byte>, i: nat)
    requires |data| > 16 && 16 * i <= |data| - 16
    ensures Slice(data[16..], i) == Slice(data, i + 1)
  {
  }

  lemma SameResidue(a: int, b: int, d: int)
    requires a % 65536 == b % 65536
    ensures (a + d) % 65536 == (b + d) % 65536
  {
  }

  /** Line `i` has the bytes from 16 * i on, at their address modulo 65536. */
  lemma {:induction false} CutShape(c: Chunk, i: nat)
    requires i < |Cut(c)|
    ensures 16 * i < |c.data| && Cut(c)[i].data == Slice(c.data, i)
    ensures Cut(c)[i].org % 65536 == (c.org + 16 * i) % 65536
    decreases i
  {
    if i > 0 {
      var rest := Chunk((c.org + 16) % 0x1_0000_0000, c.data[16..]);
      CutShape(rest, i - 1);
      SliceBehind(c.data, i - 1);
      WrapModulo(c.org + 16);
      SameResidue(rest.org, c.org + 16, 16 * (i - 1));
    }
  }

  /** All lines but the last are full, and the last one has what is left. */
  lemma CutLengths(c: Chunk)
    ensures |Cut(c)| == (|c.data| + 15) / 16
    ensures forall i :: 0 <= i < |Cut(c)| ==> |Cut(c)[i].data| == if i + 1 < |Cut(c)| then 16 else |c.data| - 16 * i
  {
    CutCount(c);
    forall i | 0 <= i < |Cut(c)| ensures |Cut(c)[i].data| == if i + 1 < |Cut(c)| then 16 else |c.data| - 16 * i {
      CutShape(c, i);
    }
  }

  /** Cutting keeps the cells. */
  lemma {:induction false} CutKeepsCells(c: Chunk)
    ensures Listing(Cut(c)) == CellsOf(c)
    decreases |c.data|
  {
    if c.data != [] {
      var k := if |c.data| > 16 then 16 else |c.data|;
      var rest := Chunk((c.org + k) % 0x1_0000_0000, c.data[k..]);
      CutKeepsCells(rest);
      WrapModulo(c.org + k);
      CellsSplit(c.org, c.data, k);
      CellsWrap(c.org + k, rest.org, rest.data);
    }
  }

  lemma {:induction false} CutAllKeepsCells(chunks: seq<Chunk>)
    ensures Listing(CutAll(chunks)) == Listing(chunks)
    decreases |chunks|
  {
    if chunks != [] {
      CutKeepsCells(chunks[0]);
      CutAllKeepsCells(chunks[1..]);
      ListingJoin(Cut(chunks[0]), CutAll(chunks[1..]));
    }
  }

  /** Of `total`, `lines` are printed; `rest`, for address `org` on, is still to be. */
  ghost predicate Progress(out: string, lines: seq<Line>, org: int, rest: seq<byte>, total: seq<Line>) {
    out == Records(lines) && lines + Cut(Chunk(org, rest)) == total
  }

  lemma Associate<T>(a: seq<T>, b: seq<T>, c: seq<T>)
    ensures (a + b) + c == a + (b + c)
  {
  }

  /** One more line printed. */
  lemma LinePrinted(out: string, lines: seq<Line>, org: int, rest: seq<byte>, total: seq<Line>, k: nat)
    requires Progress(out, lines, org, rest, total) && rest != [] && k == if |rest| > 16 then 16 else |rest|
    ensures var line: Line := Chunk(org, rest[..k]);
            Progress(out + DataRecord(line), lines + [line], (org + k) % 0x1_0000_0000, rest[k..], total)
  {
    var line: Line := Chunk(org, rest[..k]);
    var behind := Cut(Chunk((org + k) % 0x1_0000_0000, rest[k..]));
    PrintedSnoc(DataRecord, lines, line);
    assert Cut(Chunk(org, rest)) == [line] + behind;
    Associate(lines, [line], behind);
  }

  /** The wrap of an `unsigned int` does not show in 16 bits. */
  lemma WrapModulo(x: int)
    ensures x % UINT % 65536 == x % 65536
  {
    assert x == 65536 * (65536 * (x / UINT)) + x % UINT;
  }

  /** One turn of the `while (len > 0)` loop. */
  method PutLine(out: string, org: int, rest: seq<byte>, ghost lines: seq<Line>, ghost total: seq<Line>)
    returns (text: string, idx: int, ghost line: Line)
    requires 0 <= org < UINT && rest != [] && Progress(out, lines, org, rest, total)
    ensures 1 <= idx <= |rest|
    ensures Progress(text, lines + [line], (org + idx) % UINT, rest[idx..], total)
  {
    idx := if |rest| > PERLINE then PERLINE else |rest|;
    var record := PutRecord(org, rest[..idx]);
    line := Chunk(org, rest[..idx]);
    LinePrinted(out, lines, org, rest, total, idx);
    text := out + record;
  }

  /** The `while (len > 0)` loop: the records of one segment. */
  method PutChunk(start: int, data: seq<byte>) returns (out: string, ghost lines: seq<Line>)
    requires 0 <= start < UINT
    ensures out == Records(lines) && lines == Cut(Chunk(start, data))
    ensures Listing(lines) == CellsOf(Chunk(start, data))
    ensures |lines| == (|data| + 15) / 16
    ensures forall i :: 0 <= i < |lines| ==> |lines[i].data| == if i + 1 < |lines| then 16 else |data| - 16 * i
  {
    CutKeepsCells(Chunk(start, data));
    CutLengths(Chunk(start, data));
    out, lines := "", [];
    ghost var total := Cut(Chunk(start, data));
    var org, len, rest := start, |data|, data;
    while len > 0
      invariant 0 <= org < UINT && len == |rest|
      invariant Progress(out, lines, org, rest, total)
      decreases len
    {
      var idx: int;
      ghost var line: Line;
      out, idx, line := PutLine(out, org, rest, lines, total);
      lines := lines + [line];
      rest := rest[idx..];
      len := len - idx;
      org := (org + idx) % UINT;
    }
  }

  /** `getc`, the end of the file as -1. */
  function Getc(file: seq<byte>, pos: nat): int {
    if pos < |file| then file[pos] else -1
  }

  /** `getwlh`, with the reading position and the end-of-file mark. */
  method Getwlh(file: seq<byte>, pos: nat) returns (result: int, next: nat, eof: bool)
    ensures 0 <= result < UINT && eof == (pos + 2 > |file|)
    ensures next == if eof then |file| else pos + 2
    ensures if eof then result > 0 else result == Word(file[pos], file[pos + 1])
    requires pos <= |file|
  {
    result := (Getc(file, pos) + Getc(file, pos + 1) * 256) % UINT;
    eof := pos + 2 > |file|;
    next := if eof then |file| else pos + 2;
  }

  lemma {:induction false} PrintedJoin(print1: Line -> string, a: seq<Line>, b: seq<Line>)
    ensures Printed(print1, a + b) == Printed(print1, a) + Printed(print1, b)
    decreases |a|
  {
    if a == [] {
      assert a + b == b;
    } else {
      PrintedJoin(print1, a[1..], b);
      assert (a + b)[1..] == a[1..] + b;
    }
  }

  /** Between segments: `done` is printed, `now` is the segment to print next, `later` those after it. */
  ghost predicate Between(out: string, lines: seq<Line>, now: Chunk, later: seq<Chunk>, total: seq<Line>) {
    out == Records(lines) && lines + (Cut(now) + CutAll(later)) == total
  }

  lemma ChunkPrinted(out: string, lines: seq<Line>, now: Chunk, later: seq<Chunk>, total: seq<Line>, more: seq<Line>)
    requires Between(out, lines, now, later, total) && more == Cut(now)
    ensures out + Records(more) == Records(lines + more)
    ensures later == [] ==> lines + more == total
    ensures later != [] ==> Between(out + Records(more), lines + more, later[0], later[1..], total)
  {
    PrintedJoin(DataRecord, lines, more);
    Associate(lines, Cut(now), CutAll(later));
  }

  /** The segments of a format 2 file that lie behind position `pos`; the other formats have none. */
  ghost function Behind(format: int, file: seq<byte>, pos: nat): seq<Chunk>
    requires format == 2 ==> pos <= |file| && WholeSegments(file[pos..])
  {
    if format == 2 then Segments(file[pos..]) else []
  }

  lemma NextSegment(file: seq<byte>, pos: nat)
    requires pos + 2 <= |file| && WholeSegments(file[pos..])
    ensures pos + 4 <= |file|
    ensures var n := Word(file[pos + 2], file[pos + 3]);
      && pos + 4 + n <= |file| && WholeSegments(file[pos + 4 + n..])
      && Segments(file[pos..]) ==
           [Chunk(Word(file[pos], file[pos + 1]), file[pos + 4..pos + 4 + n])] + Segments(file[pos + 4 + n..])
  {
    var f := file[pos..];
    var n := Word(f[2], f[3]);
    assert f[4..4 + n] == file[pos + 4..pos + 4 + n] && f[4 + n..] == file[pos + 4 + n..];
  }

  /** The next header read, the segment it announces is the one to print next. */
  lemma NextRead(out: string, lines: seq<Line>, file: seq<byte>, at: nat, later: seq<Chunk>, total: seq<Line>,
                 org: int, pos: nat, len: int)
    requires at + 2 <= |file| && WholeSegments(file[at..]) && later == Segments(file[at..])
    requires later != [] ==> Between(out, lines, later[0], later[1..], total)
    requires pos == at + 4 <= |file| && org == Word(file[at], file[at + 1]) && len == Word(file[at + 2], file[at + 3])
    ensures 0 <= len && pos + len <= |file| && WholeSegments(file[pos + len..])
    ensures Between(out, lines, Chunk(org, file[pos..pos + len]), Behind(2, file, pos + len), total)
  {
    NextSegment(file, at);
    assert later[0] == Chunk(org, file[pos..pos + len]);
    assert later[1..] == Segments(file[pos + len..]);
  }

  lemma FirstChunk(format: int, file: seq<byte>, org: int, pos: nat, len: int)
    requires Readable(format, file)
    requires format == 2 ==> org == Word(file[0], file[1]) && pos == 4 <= |file| && len == Word(file[2], file[3])
    requires format != 2 ==> pos == (if format == 3 then 0 else if |file| < 2 then |file| else 2) && len == |file| - pos
    requires format == 3 ==> org == 0
    requires format == 1 && |file| >= 2 ==> org == Word(file[0], file[1])
    ensures 0 <= len && pos + len <= |file|
    ensures format == 2 ==> WholeSegments(file[pos + len..])
    ensures Between("", [], Chunk(org, file[pos..pos + len]), Behind(format, file, pos + len), CutAll(Chunks(format, file)))
  {
    if format == 2 {
      assert file[0..] == file;
      NextSegment(file, 0);
      Associate([], Cut(Chunk(org, file[pos..pos + len])), CutAll(Behind(format, file, pos + len)));
    } else {
      var c := Chunk(org, file[pos..pos + len]);
      assert file[pos..pos + len] == file[pos..];
      assert format == 3 ==> file[0..] == file;
      assert CutAll([c]) == Cut(c) + CutAll([]);
    }
  }

  /** Whatever `convert` prints decodes to the bytes of its input, in order, at their addresses modulo 65536. */
  lemma ConvertedDecodes(format: int, file: seq<byte>, out: string, lines: seq<Line>)
    requires Readable(format, file)
    requires out == Records(lines) + ":00000001FF\r\n" && lines == CutAll(Chunks(format, file))
    ensures Decode(out) == Cells(Listing(Chunks(format, file)))
  {
    CutAllKeepsCells(Chunks(format, file));
    DecodeInvertsPrint(lines, ":00000001FF\r\n");
  }

  /** Whether the segment announced, of `len` bytes from `pos` on, is in the file, and so are all behind it. */
  predicate Whole(format: int, file: seq<byte>, pos: nat, len: nat) {
    pos + len <= |file| && (format == 2 ==> WholeSegments(file[pos + len..]))
  }

  /** At the head of the loop: if the file is whole, what is printed and what is still to come. */
  ghost predicate AtSegment(format: int, file: seq<byte>, org: int, pos: nat, len: nat, out: string, lines: seq<Line>) {
    && (Readable(format, file) <==> Whole(format, file, pos, len))
    && (Readable(format, file) ==>
          Between(out, lines, Chunk(org, file[pos..pos + len]), Behind(format, file, pos + len), CutAll(Chunks(format, file))))
  }

  /** The header of the first segment. */
  lemma AtFirst(format: int, file: seq<byte>, org: int, pos: nat, len: nat)
    requires 1 <= format <= 3
    requires format == 2 && |file| >= 4 ==> org == Word(file[0], file[1]) && pos == 4 && len == Word(file[2], file[3])
    requires format == 2 && |file| < 4 ==> pos == |file| && len > 0
    requires format != 2 ==> pos == (if format == 3 then 0 else if |file| < 2 then |file| else 2) && len == |file| - pos
    requires format == 3 ==> org == 0
    requires format == 1 && |file| >= 2 ==> org == Word(file[0], file[1])
    ensures AtSegment(format, file, org, pos, len, "", [])
  {
    if Readable(format, file) {
      FirstChunk(format, file, org, pos, len);
    }
  }

  /** Behind the segments printed so far, at position `at`. */
  ghost predicate AfterSegment(format: int, file: seq<byte>, at: nat, out: string, lines: seq<Line>) {
    && at <= |file| && (Readable(format, file) <==> 1 <= format <= 3 && (format == 2 ==> WholeSegments(file[at..])))
    && (Readable(format, file) ==>
          var later, total := Behind(format, file, at), CutAll(Chunks(format, file));
          if later == [] then out == Records(lines) && lines == total
          else Between(out, lines, later[0], later[1..], total))
  }

  /** The header of a later one, behind the segment just printed. */
  lemma AtNext(file: seq<byte>, at: nat, org: int, pos: nat, len: nat, out: string, lines: seq<Line>)
    requires at + 2 <= |file| && AfterSegment(2, file, at, out, lines)
    requires at + 4 <= |file| ==>
      org == Word(file[at], file[at + 1]) && pos == at + 4 && len == Word(file[at + 2], file[at + 3])
    requires at + 4 > |file| ==> pos == |file| && len > 0
    ensures AtSegment(2, file, org, pos, len, out, lines)
  {
    WholeNext(file, at);
    if Readable(2, file) {
      NextSegment(file, at);
      NextRead(out, lines, file, at, Segments(file[at..]), CutAll(Chunks(2, file)), org, pos, len);
    }
  }

  /** No further header. */
  lemma AtEnd(format: int, file: seq<byte>, at: nat, out: string, lines: seq<Line>)
    requires 1 <= format <= 3 && AfterSegment(format, file, at, out, lines) && (format == 2 ==> at + 2 > |file|)
    ensures Readable(format, file) && out == Records(lines) && lines == CutAll(Chunks(format, file))
  {
  }

  lemma WholeNext(file: seq<byte>, at: nat)
    requires at + 2 <= |file|
    ensures WholeSegments(file[at..]) <==>
              at + 4 <= |file| && Whole(2, file, at + 4, Word(file[at + 2], file[at + 3]))
  {
    var f := file[at..];
    if |f| >= 4 && 4 + Word(f[2], f[3]) <= |f| {
      assert f[4 + Word(f[2], f[3])..] == file[at + 4 + Word(f[2], f[3])..];
    }
  }

  /** The body of the loop up to the next header: print the segment. */
  method PutSegment(format: int, file: seq<byte>, org: int, pos: nat, len: nat, out: string, ghost lines: seq<Line>)
    returns (text: string, ghost more: seq<Line>)
    requires 1 <= format <= 3 && 0 <= org < UINT && pos + len <= |file|
    requires AtSegment(format, file, org, pos, len, out, lines)
    ensures AfterSegment(format, file, pos + len, out + text, lines + more)
  {
    text, more := PutChunk(org, file[pos..pos + len]);
    SegmentPrinted(format, file, org, pos, len, out, lines, more);
  }

  lemma SegmentPrinted(format: int, file: seq<byte>, org: int, pos: nat, len: nat, out: string, lines: seq<Line>,
                       more: seq<Line>)
    requires 1 <= format <= 3 && pos + len <= |file| && more == Cut(Chunk(org, file[pos..pos + len]))
    requires AtSegment(format, file, org, pos, len, out, lines)
    ensures AfterSegment(format, file, pos + len, out + Records(more), lines + more)
  {
    if Readable(format, file) {
      ChunkPrinted(out, lines, Chunk(org, file[pos..pos + len]), Behind(format, file, pos + len),
                   CutAll(Chunks(format, file)), more);
    }
  }

  /** The start of `convert`: where the first segment is. */
  method FirstHeader(format: int, file: seq<byte>) returns (org: int, pos: nat, len: int)
    requires 1 <= format <= 3
    ensures 0 <= org < UINT && pos <= |file| && 0 <= len && AtSegment(format, file, org, pos, len, "", [])
  {
    var eof;
    org, pos := 0, 0;
    if format < 3 {
      org, pos, eof := Getwlh(file, 0);
    }
    if format == 2 {
      len, pos, eof := Getwlh(file, pos);
    } else {
      len := |file| - pos;
    }
    AtFirst(format, file, org, pos, len);
  }

  /** `convert`. A format 2 file that ends inside a segment makes it print what its buffer happens to hold;
      that is not followed any further. */
  method Convert(format: int, file: seq<byte>) returns (whole: bool, out: string, ghost lines: seq<Line>)
    requires 1 <= format <= 3
    ensures whole == Readable(format, file)
    ensures whole ==> out == Records(lines) + ":00000001FF\r\n" && lines == CutAll(Chunks(format, file))
    ensures whole ==> Decode(out) == Cells(Listing(Chunks(format, file)))
  {
    var eof;
    var org, pos, len := FirstHeader(format, file);
    out, lines := "", [];
    while true
      invariant 0 <= org < UINT && 0 <= pos <= |file| && 0 <= len
      invariant AtSegment(format, file, org, pos, len, out, lines)
      decreases |file| - pos
    {
      if pos + len > |file| {
        return false, out, lines;
      }
      ghost var at := pos + len;
      var text, more := PutSegment(format, file, org, pos, len, out, lines);
      out := out + text;
      lines := lines + more;
      pos := pos + len;
      if format == 2 {
        org, pos, eof := Getwlh(file, pos);
        if eof {
          AtEnd(format, file, at, out, lines);
          break;
        }
        len, pos, eof := Getwlh(file, pos);
        AtNext(file, at, org, pos, len, out, lines);
      } else {
        AtEnd(format, file, at, out, lines);
        break;
      }
    }
    out := out + ":00000001FF\r\n";
    ConvertedDecodes(format, file, out, lines);
    whole := true;
  }
}
