/** ATasm's table-driven CRC (crc32.c) and the shift register it speeds up. */
module AtasmCrc32 {

  /** The reflected generator polynomial. */
  const POLYNOMIAL: bv32 := 0xedb88320

  /** The table of feedback terms, eight entries to a row. */
  function Row(h: int): (row: seq<bv32>)
    ensures |row| == 8
  {
    match h
    case 0 => [0x00000000, 0x77073096, 0xee0e612c, 0x990951ba, 0x076dc419, 0x706af48f, 0xe963a535, 0x9e6495a3]
    case 1 => [0x0edb8832, 0x79dcb8a4, 0xe0d5e91e, 0x97d2d988, 0x09b64c2b, 0x7eb17cbd, 0xe7b82d07, 0x90bf1d91]
    case 2 => [0x1db71064, 0x6ab020f2, 0xf3b97148, 0x84be41de, 0x1adad47d, 0x6ddde4eb, 0xf4d4b551, 0x83d385c7]
    case 3 => [0x136c9856, 0x646ba8c0, 0xfd62f97a, 0x8a65c9ec, 0x14015c4f, 0x63066cd9, 0xfa0f3d63, 0x8d080df5]
    case 4 => [0x3b6e20c8, 0x4c69105e, 0xd56041e4, 0xa2677172, 0x3c03e4d1, 0x4b04d447, 0xd20d85fd, 0xa50ab56b]
    case 5 => [0x35b5a8fa, 0x42b2986c, 0xdbbbc9d6, 0xacbcf940, 0x32d86ce3, 0x45df5c75, 0xdcd60dcf, 0xabd13d59]
    case 6 => [0x26d930ac, 0x51de003a, 0xc8d75180, 0xbfd06116, 0x21b4f4b5, 0x56b3c423, 0xcfba9599, 0xb8bda50f]
    case 7 => [0x2802b89e, 0x5f058808, 0xc60cd9b2, 0xb10be924, 0x2f6f7c87, 0x58684c11, 0xc1611dab, 0xb6662d3d]
    case 8 => [0x76dc4190, 0x01db7106, 0x98d220bc, 0xefd5102a, 0x71b18589, 0x06b6b51f, 0x9fbfe4a5, 0xe8b8d433]
    case 9 => [0x7807c9a2, 0x0f00f934, 0x9609a88e, 0xe10e9818, 0x7f6a0dbb, 0x086d3d2d, 0x91646c97, 0xe6635c01]
    case 10 => [0x6b6b51f4, 0x1c6c6162, 0x856530d8, 0xf262004e, 0x6c0695ed, 0x1b01a57b, 0x8208f4c1, 0xf50fc457]
    case 11 => [0x65b0d9c6, 0x12b7e950, 0x8bbeb8ea, 0xfcb9887c, 0x62dd1ddf, 0x15da2d49, 0x8cd37cf3, 0xfbd44c65]
    case 12 => [0x4db26158, 0x3ab551ce, 0xa3bc0074, 0xd4bb30e2, 0x4adfa541, 0x3dd895d7, 0xa4d1c46d, 0xd3d6f4fb]
    case 13 => [0x4369e96a, 0x346ed9fc, 0xad678846, 0xda60b8d0, 0x44042d73, 0x33031de5, 0xaa0a4c5f, 0xdd0d7cc9]
    case 14 => [0x5005713c, 0x270241aa, 0xbe0b1010, 0xc90c2086, 0x5768b525, 0x206f85b3, 0xb966d409, 0xce61e49f]
    case 15 => [0x5edef90e, 0x29d9c998, 0xb0d09822, 0xc7d7a8b4, 0x59b33d17, 0x2eb40d81, 0xb7bd5c3b, 0xc0ba6cad]
    case 16 => [0xedb88320, 0x9abfb3b6, 0x03b6e20c, 0x74b1d29a, 0xead54739, 0x9dd277af, 0x04db2615, 0x73dc1683]
    case 17 => [0xe3630b12, 0x94643b84, 0x0d6d6a3e, 0x7a6a5aa8, 0xe40ecf0b, 0x9309ff9d, 0x0a00ae27, 0x7d079eb1]
    case 18 => [0xf00f9344, 0x8708a3d2, 0x1e01f268, 0x6906c2fe, 0xf762575d, 0x806567cb, 0x196c3671, 0x6e6b06e7]
    case 19 => [0xfed41b76, 0x89d32be0, 0x10da7a5a, 0x67dd4acc, 0xf9b9df6f, 0x8ebeeff9, 0x17b7be43, 0x60b08ed5]
    case 20 => [0xd6d6a3e8, 0xa1d1937e, 0x38d8c2c4, 0x4fdff252, 0xd1bb67f1, 0xa6bc5767, 0x3fb506dd, 0x48b2364b]
    case 21 => [0xd80d2bda, 0xaf0a1b4c, 0x36034af6, 0x41047a60, 0xdf60efc3, 0xa867df55, 0x316e8eef, 0x4669be79]
    case 22 => [0xcb61b38c, 0xbc66831a, 0x256fd2a0, 0x5268e236, 0xcc0c7795, 0xbb0b4703, 0x220216b9, 0x5505262f]
    case 23 => [0xc5ba3bbe, 0xb2bd0b28, 0x2bb45a92, 0x5cb36a04, 0xc2d7ffa7, 0xb5d0cf31, 0x2cd99e8b, 0x5bdeae1d]
    case 24 => [0x9b64c2b0, 0xec63f226, 0x756aa39c, 0x026d930a, 0x9c0906a9, 0xeb0e363f, 0x72076785, 0x05005713]
    case 25 => [0x95bf4a82, 0xe2b87a14, 0x7bb12bae, 0x0cb61b38, 0x92d28e9b, 0xe5d5be0d, 0x7cdcefb7, 0x0bdbdf21]
    case 26 => [0x86d3d2d4, 0xf1d4e242, 0x68ddb3f8, 0x1fda836e, 0x81be16cd, 0xf6b9265b, 0x6fb077e1, 0x18b74777]
    case 27 => [0x88085ae6, 0xff0f6a70, 0x66063bca, 0x11010b5c, 0x8f659eff, 0xf862ae69, 0x616bffd3, 0x166ccf45]
    case 28 => [0xa00ae278, 0xd70dd2ee, 0x4e048354, 0x3903b3c2, 0xa7672661, 0xd06016f7, 0x4969474d, 0x3e6e77db]
    case 29 => [0xaed16a4a, 0xd9d65adc, 0x40df0b66, 0x37d83bf0, 0xa9bcae53, 0xdebb9ec5, 0x47b2cf7f, 0x30b5ffe9]
    case 30 => [0xbdbdf21c, 0xcabac28a, 0x53b39330, 0x24b4a3a6, 0xbad03605, 0xcdd70693, 0x54de5729, 0x23d967bf]
    case _ => [0xb3667a2e, 0xc4614ab8, 0x5d681b02, 0x2a6f2b94, 0xb40bbe37, 0xc30c8ea1, 0x5a05df1b, 0x2d02ef8d]
  }

  /** One clock of the shift register: the low bit falls out and, if set, feeds the polynomial back
      (the negated low bit is a mask of ones or zeros). */
  function Shift(c: bv32): bv32 {
    (c >> 1) ^ (POLYNOMIAL & (0 - (c & 1)))
  }

  lemma ShiftFeedsBack(c: bv32)
    ensures Shift(c) == if c & 1 == 1 then (c >> 1) ^ POLYNOMIAL else c >> 1
  {
    assert c & 1 == 0 || c & 1 == 1;
  }

  /** `n` clocks. */
  function Clock<T>(shift: T -> T, c: T, n: nat): T
    decreases n, c
  {
    if n == 0 then c else Clock(shift, shift(c), n - 1)
  }

  /** Four clocks, written out. */
  function Shift4(c: bv32): bv32 {
    var c1 := (c >> 1) ^ (POLYNOMIAL & (0 - (c & 1)));
    var c2 := (c1 >> 1) ^ (POLYNOMIAL & (0 - (c1 & 1)));
    var c3 := (c2 >> 1) ^ (POLYNOMIAL & (0 - (c2 & 1)));
    (c3 >> 1) ^ (POLYNOMIAL & (0 - (c3 & 1)))
  }

  function Shift8(c: bv32): bv32 {
    Shift4(Shift4(c))
  }

  /** Eight clocks. */
  function ClockByte(c: bv32): bv32 {
    Clock(Shift, c, 8)
  }

  /** `err_crc32_tab[x & 0xff]`. */
  function Entry(x: bv32): bv32 {
    Row(((x & 0xff) >> 3) as int)[(x & 7) as int]
  }

  /** The shift register takes a byte: it enters at the low end, then `clock` turns eight times. */
  function RegisterStep(clock: bv32 -> bv32, crc: bv32, b: bv8): bv32 {
    clock(crc ^ (b as bv32))
  }

  /** The table takes a byte, as the loop of `err_crc32` does. */
  function TableStep(entry: bv32 -> bv32, crc: bv32, b: bv8): bv32 {
    entry(crc ^ (b as bv32)) ^ (crc >> 8)
  }

  /** The register fed a whole buffer. */
  function FeedRegister(clock: bv32 -> bv32, crc: bv32, s: seq<bv8>): bv32
    decreases |s|
  {
    if s == [] then crc else FeedRegister(clock, RegisterStep(clock, crc, s[0]), s[1..])
  }

  /** The table fed a whole buffer. */
  function FeedTable(entry: bv32 -> bv32, crc: bv32, s: seq<bv8>): bv32
    decreases |s|
  {
    if s == [] then crc else FeedTable(entry, TableStep(entry, crc, s[0]), s[1..])
  }

  // ---------------------------------------------------------------- the table is right

  /** The row holds the values of `f` at `x` and the seven places after it. */
  predicate Matches(row: seq<bv32>, f: bv32 -> bv32, x: bv32) {
    |row| == 8 && row[0] == f(x) && row[1] == f(x + 1) && row[2] == f(x + 2) && row[3] == f(x + 3)
    && row[4] == f(x + 4) && row[5] == f(x + 5) && row[6] == f(x + 6) && row[7] == f(x + 7)
  }

  lemma Rows0(h: bv32)
    requires 0 <= h < 8
    ensures Matches(Row(h as int), Shift8, h << 3)
  {
    if h == 0 {
    } else if h == 1 {
    } else if h == 2 {
    } else if h == 3 {
    } else if h == 4 {
    } else if h == 5 {
    } else if h == 6 {
    } else {
    }
  }

  lemma Rows8(h: bv32)
    requires 8 <= h < 16
    ensures Matches(Row(h as int), Shift8, h << 3)
  {
    if h == 8 {
    } else if h == 9 {
    } else if h == 10 {
    } else if h == 11 {
    } else if h == 12 {
    } else if h == 13 {
    } else if h == 14 {
    } else {
    }
  }

  lemma Rows16(h: bv32)
    requires 16 <= h < 24
    ensures Matches(Row(h as int), Shift8, h << 3)
  {
    if h == 16 {
    } else if h == 17 {
    } else if h == 18 {
    } else if h == 19 {
    } else if h == 20 {
    } else if h == 21 {
    } else if h == 22 {
    } else {
    }
  }

  lemma Rows24(h: bv32)
    requires 24 <= h < 32
    ensures Matches(Row(h as int), Shift8, h << 3)
  {
    if h == 24 {
    } else if h == 25 {
    } else if h == 26 {
    } else if h == 27 {
    } else if h == 28 {
    } else if h == 29 {
    } else if h == 30 {
    } else {
    }
  }

  lemma RowMatches(h: bv32)
    requires h < 32
    ensures Matches(Row(h as int), Shift8, h << 3)
  {
    if h < 8 {
      Rows0(h);
    } else if h < 16 {
      Rows8(h);
    } else if h < 24 {
      Rows16(h);
    } else {
      Rows24(h);
    }
  }

  /** `y` is `i` places after `x`. */
  predicate IsPlace(y: bv32, x: bv32, i: int) {
    || (y == x && i == 0)
    || (y == x + 1 && i == 1)
    || (y == x + 2 && i == 2)
    || (y == x + 3 && i == 3)
    || (y == x + 4 && i == 4)
    || (y == x + 5 && i == 5)
    || (y == x + 6 && i == 6)
    || (y == x + 7 && i == 7)
  }

  lemma PickFromRow(row: seq<bv32>, f: bv32 -> bv32, x: bv32, y: bv32, i: int)
    requires Matches(row, f, x) && IsPlace(y, x, i)
    ensures row[i] == f(y)
  {
    if i == 0 {
    } else if i == 1 {
    } else if i == 2 {
    } else if i == 3 {
    } else if i == 4 {
    } else if i == 5 {
    } else if i == 6 {
    } else {
    }
  }

  lemma EntryPlace(x: bv32)
    ensures IsPlace(x & 0xff, (x & 0xff) >> 3 << 3, (x & 7) as int)
  {
  }

  /** Every table entry is what eight clocks make of its index. */
  lemma EntryIsShift8(x: bv32)
    ensures Entry(x) == Shift8(x & 0xff)
  {
    RowMatches((x & 0xff) >> 3);
    EntryPlace(x);
    PickFromRow(Row(((x & 0xff) >> 3) as int), Shift8, (x & 0xff) >> 3 << 3, x & 0xff, (x & 7) as int);
  }

  lemma EntryIsClock(x: bv32)
    ensures Entry(x) == ClockByte(x & 0xff)
  {
    EntryIsShift8(x);
    Shift8IsClock(x & 0xff);
  }

  // ---------------------------------------------------------------- eight clocks at once

  function Xor(a: bv32, b: bv32): bv32 {
    a ^ b
  }

  /** `f` distributes over `plus`. */
  ghost predicate Linear<T(!new)>(f: T -> T, plus: (T, T) -> T) {
    forall a, b :: f(plus(a, b)) == plus(f(a), f(b))
  }

  /** The register is linear. */
  lemma ShiftLinear(a: bv32, b: bv32)
    ensures Shift(Xor(a, b)) == Xor(Shift(a), Shift(b))
  {
    assert (a ^ b) >> 1 == (a >> 1) ^ (b >> 1);
    assert (a ^ b) & 1 == (a & 1) ^ (b & 1);
    assert a & 1 == 0 || a & 1 == 1;
    assert b & 1 == 0 || b & 1 == 1;
  }

  lemma {:induction false} ClockLinear<T(!new)>(shift: T -> T, plus: (T, T) -> T, a: T, b: T, n: nat)
    requires Linear(shift, plus)
    ensures Clock(shift, plus(a, b), n) == plus(Clock(shift, a, n), Clock(shift, b, n))
    decreases n, a
  {
    if n > 0 {
      ClockLinear(shift, plus, shift(a), shift(b), n - 1);
    }
  }

  lemma ClockUnrolled<T>(f: T -> T, c: T)
    ensures Clock(f, c, 8) == f(f(f(f(f(f(f(f(c))))))))
  {
    var d := f(f(f(f(c))));
    assert Clock(f, c, 8) == Clock(f, f(c), 7) == Clock(f, f(f(c)), 6) == Clock(f, f(f(f(c))), 5) == Clock(f, d, 4);
    assert Clock(f, d, 4) == Clock(f, f(d), 3) == Clock(f, f(f(d)), 2) == Clock(f, f(f(f(d))), 1);
  }

  /** With a zero low byte the polynomial is not fed back in eight clocks. */
  lemma Shift8High(c: bv32)
    requires c & 0xff == 0
    ensures Shift8(c) == c >> 8
  {
  }

  lemma SplitLow(c: bv32)
    ensures c == Xor(c & 0xff, c & 0xffffff00) && (c & 0xffffff00) & 0xff == 0 && (c & 0xffffff00) >> 8 == c >> 8
  {
  }

  lemma Shift4IsShifts(c: bv32)
    ensures Shift4(c) == Shift(Shift(Shift(Shift(c))))
  {
  }

  lemma ShiftsAreClock(c: bv32, m: bv32, d: bv32)
    requires m == Shift(Shift(Shift(Shift(c)))) && d == Shift(Shift(Shift(Shift(m))))
    ensures Clock(Shift, c, 8) == d
  {
    ClockUnrolled(Shift, c);
  }

  lemma Shift8IsClock(c: bv32)
    ensures Clock(Shift, c, 8) == Shift8(c)
  {
    Shift4IsShifts(c);
    Shift4IsShifts(Shift4(c));
    ShiftsAreClock(c, Shift4(c), Shift8(c));
  }

  ghost predicate IsTable(entry: bv32 -> bv32, clock: bv32 -> bv32) {
    forall x :: entry(x) == clock(x & 0xff)
  }

  ghost predicate ActsOnLowByte(clock: bv32 -> bv32) {
    forall c :: clock(c) == clock(c & 0xff) ^ (c >> 8)
  }

  lemma EntriesAreRight()
    ensures IsTable(Entry, ClockByte)
  {
    forall x ensures Entry(x) == ClockByte(x & 0xff) {
      EntryIsClock(x);
    }
  }

  ghost predicate MovesHighBytesDown(clock: bv32 -> bv32) {
    forall c :: c & 0xff == 0 ==> clock(c) == c >> 8
  }

  lemma ClockByteIsLinear()
    ensures Linear(ClockByte, Xor)
  {
    forall a, b ensures Shift(Xor(a, b)) == Xor(Shift(a), Shift(b)) {
      ShiftLinear(a, b);
    }
    forall a, b ensures ClockByte(Xor(a, b)) == Xor(ClockByte(a), ClockByte(b)) {
      ClockLinear(Shift, Xor, a, b, 8);
    }
  }

  lemma ClockByteMovesDown()
    ensures MovesHighBytesDown(ClockByte)
  {
    forall c | c & 0xff == 0 ensures ClockByte(c) == c >> 8 {
      Shift8IsClock(c);
      Shift8High(c);
    }
  }

  /** Eight clocks act on the low byte alone; the rest just moves down. */
  lemma LinearActsOnLowByte(clock: bv32 -> bv32)
    requires Linear(clock, Xor) && MovesHighBytesDown(clock)
    ensures ActsOnLowByte(clock)
  {
    forall c ensures clock(c) == clock(c & 0xff) ^ (c >> 8) {
      SplitLow(c);
      assert clock(Xor(c & 0xff, c & 0xffffff00)) == Xor(clock(c & 0xff), clock(c & 0xffffff00));
    }
  }

  lemma StepsAgree(entry: bv32 -> bv32, clock: bv32 -> bv32, crc: bv32, b: bv8)
    requires IsTable(entry, clock) && ActsOnLowByte(clock)
    ensures TableStep(entry, crc, b) == RegisterStep(clock, crc, b)
  {
  }

  /** One table step is eight clocks of the register, byte after byte. */
  lemma {:induction false} FeedAgree(entry: bv32 -> bv32, clock: bv32 -> bv32, crc: bv32, s: seq<bv8>)
    requires IsTable(entry, clock) && ActsOnLowByte(clock)
    ensures FeedTable(entry, crc, s) == FeedRegister(clock, crc, s)
    decreases |s|
  {
    if s != [] {
      StepsAgree(entry, clock, crc, s[0]);
      FeedAgree(entry, clock, TableStep(entry, crc, s[0]), s[1..]);
    }
  }

  /** The table-driven CRC is the bit-serial one, on every buffer and from every initial value. */
  lemma TableIsRegister(crc: bv32, s: seq<bv8>)
    ensures FeedTable(Entry, crc, s) == FeedRegister(ClockByte, crc, s)
  {
    EntriesAreRight();
    ClockByteIsLinear();
    ClockByteMovesDown();
    LinearActsOnLowByte(ClockByte);
    FeedAgree(Entry, ClockByte, crc, s);
  }

  lemma FeedNext(entry: bv32 -> bv32, crc: bv32, s: seq<bv8>, i: nat)
    requires i < |s|
    ensures FeedTable(entry, crc, s[i..]) == FeedTable(entry, TableStep(entry, crc, s[i]), s[i + 1..])
  {
  }

  /** `err_crc32`: the loop over the buffer, from 0 and without a final complement. */
  method ErrCrc32(s: array<bv8>) returns (crc32val: bv32)
    ensures crc32val == FeedRegister(ClockByte, 0, s[..])
  {
    crc32val := 0;
    for i := 0 to s.Length
      invariant FeedTable(Entry, crc32val, s[..][i..]) == FeedTable(Entry, 0, s[..])
    {
      FeedNext(Entry, crc32val, s[..], i);
      crc32val := TableStep(Entry, crc32val, s[i]);
    }
    TableIsRegister(0, s[..]);
  }
}
