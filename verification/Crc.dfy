/** The checksum of the firmware images (app/ota_upgrade/crc.c) against its definition, one bit at a
    time: reflected, polynomial 0x04C11DB7, as in section 8 of RFC 1952 and section 3.2.9 of
    IEEE 802.3. */
module Crc {
  import opened CrcTable

  function Bit32(crc: bv32): bv32 {
    if crc & 1 == 1 then (crc >> 1) ^ 0xEDB88320 else crc >> 1
  }

  function Bits32(crc: bv32): bv32 {
    Bit32(Bit32(Bit32(Bit32(Bit32(Bit32(Bit32(Bit32(crc))))))))
  }

  /** The definition: each byte is added to the low bits, then eight bits are shifted out. */
  function Crc32Bitwise(crc: bv32, data: seq<bv8>): bv32
    decreases |data|
  {
    if data == [] then crc else Crc32Bitwise(Bits32(Xor(crc, data[0] as bv32)), data[1..])
  }

  // One step is linear, so that eight steps of a whole word split into shifting its high part and
  // looking up its low byte. Xor is hidden below so that it is reasoned about by name only.

  lemma ShiftXor(x: bv32, y: bv32)
    ensures (x ^ y) >> 1 == (x >> 1) ^ (y >> 1)
    ensures (x ^ y) & 1 == (x & 1) ^ (y & 1)
    ensures x & 1 == 0 || x & 1 == 1
  {
  }

  lemma XorSwap(a: bv32, b: bv32, c: bv32)
    ensures (a ^ b) ^ c == (a ^ c) ^ b == a ^ (b ^ c)
    ensures (a ^ c) ^ (b ^ c) == a ^ b
  {
  }

  lemma Bit32Linear(x: bv32, y: bv32)
    ensures Bit32(Xor(x, y)) == Xor(Bit32(x), Bit32(y))
  {
    ShiftXor(x, y);
    ShiftXor(y, x);
    XorSwap(x >> 1, y >> 1, 0xEDB88320);
  }

  lemma Bits32Linear(x: bv32, y: bv32)
    ensures Bits32(Xor(x, y)) == Xor(Bits32(x), Bits32(y))
  {
    hide Bit32, Xor;
    var x1, y1 := Bit32(x), Bit32(y);
    Bit32Linear(x, y);
    var x2, y2 := Bit32(x1), Bit32(y1);
    Bit32Linear(x1, y1);
    var x3, y3 := Bit32(x2), Bit32(y2);
    Bit32Linear(x2, y2);
    var x4, y4 := Bit32(x3), Bit32(y3);
    Bit32Linear(x3, y3);
    var x5, y5 := Bit32(x4), Bit32(y4);
    Bit32Linear(x4, y4);
    var x6, y6 := Bit32(x5), Bit32(y5);
    Bit32Linear(x5, y5);
    var x7, y7 := Bit32(x6), Bit32(y6);
    Bit32Linear(x6, y6);
    Bit32Linear(x7, y7);
  }

  lemma HighPartShifts(x: bv32)
    ensures Bits32(x & 0xFFFFFF00) == x >> 8
    ensures x == Xor(x & 0xFFFFFF00, x & 0xFF)
  {
  }

  lemma Bits32Splits(x: bv32)
    ensures Bits32(x) == Xor(x >> 8, Bits32(x & 0xFF))
  {
    hide Bits32, Xor;
    HighPartShifts(x);
    Bits32Linear(x & 0xFFFFFF00, x & 0xFF);
  }

  // The table.

  lemma FirstRow(k: nat)
    requires k < 16
    ensures ROW_0[k] == Bits32(k as bv32)
  {
  }

  lemma FirstColumn(r: nat)
    requires r < 16
    ensures COLUMN[r] == Bits32((r as bv32) << 4)
  {
  }

  function Hi(i: bv32): (r: nat)
    requires i < 256
    ensures r < 16
  {
    (i >> 4) as int
  }

  function Lo(i: bv32): (r: nat)
    ensures r < 16
  {
    (i & 15) as int
  }

  function Joined(hi: nat, lo: nat): bv32
    requires hi < 16 && lo < 16
  {
    Xor((hi as bv32) << 4, lo as bv32)
  }

  lemma JoinNibbles(i: bv32)
    requires i < 256
    ensures i == Joined(Hi(i), Lo(i))
  {
  }

  /** The table's entry for one byte. */
  function Lookup(i: bv32): bv32
    requires i < 256
  {
    RowsFollow(Hi(i));
    Row(Hi(i))[Lo(i)]
  }

  lemma EntryIsBits32(hi: nat, lo: nat)
    requires hi < 16 && lo < 16
    ensures |Row(hi)| == 16
    ensures Row(hi)[lo] == Bits32(Joined(hi, lo))
  {
    assert |COLUMN| == 16;
    hide Bits32, Row, ROW_0, Xor, COLUMN;
    RowsFollow(hi);
    InRow(Row(hi), COLUMN[hi], lo);
    FirstRow(lo);
    FirstColumn(hi);
    Bits32Linear((hi as bv32) << 4, lo as bv32);
  }

  /** Every entry of the table is what eight steps make of its index. */
  lemma LookupIsBits32(i: bv32)
    requires i < 256
    ensures Lookup(i) == Bits32(i)
  {
    hide Bits32, Row, Hi, Lo, Joined, Follows;
    JoinNibbles(i);
    EntryIsBits32(Hi(i), Lo(i));
  }

  lemma {:induction false} Crc32Append(crc: bv32, a: seq<bv8>, b: seq<bv8>)
    ensures Crc32Bitwise(crc, a + b) == Crc32Bitwise(Crc32Bitwise(crc, a), b)
    decreases |a|
  {
    hide Bits32, Xor;
    if a == [] {
      assert a + b == b;
    } else {
      assert (a + b)[1..] == a[1..] + b;
      Crc32Append(Bits32(Xor(crc, a[0] as bv32)), a[1..], b);
    }
  }

  lemma Crc32Last(crc: bv32, a: seq<bv8>, b: bv8)
    ensures Crc32Bitwise(crc, a + [b]) == Bits32(Xor(Crc32Bitwise(crc, a), b as bv32))
  {
    hide Bits32, Xor;
    Crc32Append(crc, a, [b]);
  }

  function High(crc: bv32): bv32 {
    (crc >> 8) & 0x00FFFFFF
  }

  function Index(crc: bv32, b: bv8): (i: bv32)
    ensures i < 256
  {
    (crc ^ (b as bv32)) & 0xFF
  }

  /** One turn of the table-driven loop. */
  function Turn(crc: bv32, b: bv8): bv32 {
    Xor(High(crc), Lookup(Index(crc, b)))
  }

  lemma TurnParts(crc: bv32, b: bv8)
    ensures High(crc) == Xor(crc, b as bv32) >> 8
    ensures Index(crc, b) == Xor(crc, b as bv32) & 0xFF
  {
  }

  lemma TurnIsBits32(crc: bv32, b: bv8)
    ensures Turn(crc, b) == Bits32(Xor(crc, b as bv32))
  {
    hide Bits32, Lookup, Xor, High, Index;
    TurnParts(crc, b);
    Bits32Splits(Xor(crc, b as bv32));
    LookupIsBits32(Index(crc, b));
  }

  /** The table-driven loop computes the checksum the standards define, from any starting value. */
  method GetCrc32Update(initVect: bv32, buffer: seq<bv8>) returns (crc: bv32)
    ensures crc == Crc32Bitwise(initVect, buffer)
  {
    hide Bits32, Turn, Xor;
    crc := initVect;
    var i := 0;
    while i < |buffer|
      invariant 0 <= i <= |buffer|
      invariant crc == Crc32Bitwise(initVect, buffer[..i])
    {
      TurnIsBits32(crc, buffer[i]);
      Crc32Last(initVect, buffer[..i], buffer[i]);
      assert buffer[..i + 1] == buffer[..i] + [buffer[i]];
      crc := Turn(crc, buffer[i]);
      i := i + 1;
    }
    assert buffer[..i] == buffer;
  }

  function Crc32(data: seq<bv8>): bv32 {
    Crc32Bitwise(0xFFFFFFFF, data) ^ 0xFFFFFFFF
  }

  method GetCrc32(buffer: seq<bv8>) returns (r: bv32)
    ensures r == Crc32(buffer)
  {
    hide Crc32Bitwise;
    var crc := GetCrc32Update(0xFFFFFFFF, buffer);
    r := crc ^ 0xFFFFFFFF;
  }

  // What the checksum is for.

  lemma Bit32Injective(x: bv32, y: bv32)
    requires Bit32(x) == Bit32(y)
    ensures x == y
  {
  }

  lemma Bits32Injective(x: bv32, y: bv32)
    requires Bits32(x) == Bits32(y)
    ensures x == y
  {
    hide Bit32;
    var x1, y1 := Bit32(x), Bit32(y);
    var x2, y2 := Bit32(x1), Bit32(y1);
    var x3, y3 := Bit32(x2), Bit32(y2);
    var x4, y4 := Bit32(x3), Bit32(y3);
    var x5, y5 := Bit32(x4), Bit32(y4);
    var x6, y6 := Bit32(x5), Bit32(y5);
    var x7, y7 := Bit32(x6), Bit32(y6);
    Bit32Injective(x7, y7);
    Bit32Injective(x6, y6);
    Bit32Injective(x5, y5);
    Bit32Injective(x4, y4);
    Bit32Injective(x3, y3);
    Bit32Injective(x2, y2);
    Bit32Injective(x1, y1);
    Bit32Injective(x, y);
  }

  lemma XorInjective(a: bv32, b: bv32, c: bv32)
    requires Xor(a, c) == Xor(b, c)
    ensures a == b
  {
    XorSwap(a, b, c);
  }

  lemma {:induction false} Crc32Injective(x: bv32, y: bv32, data: seq<bv8>)
    requires Crc32Bitwise(x, data) == Crc32Bitwise(y, data)
    ensures x == y
    decreases |data|
  {
    hide Bits32, Xor;
    if data != [] {
      var b := data[0] as bv32;
      Crc32Injective(Bits32(Xor(x, b)), Bits32(Xor(y, b)), data[1..]);
      Bits32Injective(Xor(x, b), Xor(y, b));
      XorInjective(x, y, b);
    }
  }

  function Up(w: bv32): bv32 {
    w << 8
  }

  /** The bytes of d as a little-endian word. */
  function Word(d: seq<bv8>): bv32
    decreases |d|
  {
    if d == [] then 0 else Xor(Up(Word(d[1..])), d[0] as bv32)
  }

  lemma ShiftIn(w: bv32, b: bv8)
    ensures w <= 0xFF ==> Xor(Up(w), b as bv32) <= 0xFFFF
    ensures w <= 0xFFFF ==> Xor(Up(w), b as bv32) <= 0xFFFFFF
    ensures w <= 0xFFFFFF && Xor(Up(w), b as bv32) == 0 ==> w == 0 && b == 0
  {
  }

  lemma {:induction false} WordFits(d: seq<bv8>)
    requires |d| <= 3
    ensures Word(d) <= if |d| == 3 then 0xFFFFFF else if |d| == 2 then 0xFFFF else if |d| == 1 then 0xFF else 0
    decreases |d|
  {
    if d != [] {
      WordFits(d[1..]);
      ShiftIn(Word(d[1..]), d[0]);
    }
  }

  lemma WordAtMost(d: seq<bv8>)
    requires |d| <= 3
    ensures Word(d) <= 0xFFFFFF
  {
    hide Word;
    WordFits(d);
  }

  lemma {:induction false} ZeroWord(d: seq<bv8>)
    requires |d| <= 4 && Word(d) == 0
    ensures forall k :: 0 <= k < |d| ==> d[k] == 0
    decreases |d|
  {
    if d != [] {
      WordFits(d[1..]);
      ShiftIn(Word(d[1..]), d[0]);
      ZeroWord(d[1..]);
      assert forall k :: 1 <= k < |d| ==> d[k] == d[1..][k - 1];
    }
  }

  function HighBytes(x: bv32): bv32 {
    x & 0xFFFFFF00
  }

  function Down(x: bv32): bv32 {
    x >> 8
  }

  lemma UpAndDown(w: bv32)
    requires w <= 0xFFFFFF
    ensures HighBytes(Up(w)) == Up(w) && Down(Up(w)) == w
  {
  }

  lemma HighBytesShift(x: bv32)
    ensures Bits32(HighBytes(x)) == Down(x)
  {
  }

  lemma UpShiftsOut(w: bv32)
    requires w <= 0xFFFFFF
    ensures Bits32(Up(w)) == w
  {
    hide Bits32, Up, Down, HighBytes;
    UpAndDown(w);
    HighBytesShift(Up(w));
  }

  lemma XorCancel(e: bv32, b: bv32)
    ensures Xor(Xor(e, b), b) == e
  {
  }

  lemma StepBack(e: bv32, b: bv32, w: bv32)
    requires w <= 0xFFFFFF && Bits32(Xor(e, b)) == w
    ensures e == Xor(Up(w), b)
  {
    hide Bits32, Up, Xor;
    UpShiftsOut(w);
    Bits32Injective(Xor(e, b), Up(w));
    XorCancel(e, b);
  }

  /** Up to four bytes bring the register to zero only when it held just these bytes. */
  lemma {:induction false} OnlyItsOwnWord(e: bv32, d: seq<bv8>)
    requires |d| <= 4 && Crc32Bitwise(e, d) == 0
    ensures e == Word(d)
    decreases |d|
  {
    hide Bits32, Xor, Up;
    if d != [] {
      var b := d[0] as bv32;
      OnlyItsOwnWord(Bits32(Xor(e, b)), d[1..]);
      WordAtMost(d[1..]);
      StepBack(e, b, Word(d[1..]));
    }
  }

  function Apart(x: bv8, y: bv8): bv8 {
    x ^ y
  }

  function Difference(a: seq<bv8>, b: seq<bv8>): (d: seq<bv8>)
    requires |a| == |b|
    ensures |d| == |a|
  {
    seq(|a|, i requires 0 <= i < |a| => Apart(a[i], b[i]))
  }

  lemma ApartWidens(x: bv8, y: bv8)
    ensures Apart(x, y) as bv32 == Xor(x as bv32, y as bv32)
  {
  }

  lemma XorAlgebra(a: bv32, b: bv32, c: bv32)
    ensures Xor(Xor(a, b), c) == Xor(a, Xor(b, c)) && Xor(a, b) == Xor(b, a)
  {
    XorSwap(a, b, c);
  }

  lemma XorCross(p: bv32, q: bv32, x: bv32, y: bv32)
    ensures Xor(Xor(p, x), Xor(q, y)) == Xor(Xor(p, q), Xor(x, y))
  {
    hide Xor;
    XorAlgebra(p, x, Xor(q, y));
    XorAlgebra(x, q, y);
    XorAlgebra(q, x, y);
    XorAlgebra(p, q, Xor(x, y));
  }

  lemma DifferenceStep(p: bv32, q: bv32, x: bv8, y: bv8)
    ensures Xor(Bits32(Xor(p, x as bv32)), Bits32(Xor(q, y as bv32))) == Bits32(Xor(Xor(p, q), Apart(x, y) as bv32))
  {
    hide Bits32, Xor, Apart;
    ApartWidens(x, y);
    XorCross(p, q, x as bv32, y as bv32);
    Bits32Linear(Xor(p, x as bv32), Xor(q, y as bv32));
  }

  lemma {:induction false} CrcOfDifference(p: bv32, q: bv32, a: seq<bv8>, b: seq<bv8>)
    requires |a| == |b|
    ensures Xor(Crc32Bitwise(p, a), Crc32Bitwise(q, b)) == Crc32Bitwise(Xor(p, q), Difference(a, b))
    decreases |a|
  {
    hide Bits32, Xor, Apart;
    if a != [] {
      DifferenceStep(p, q, a[0], b[0]);
      CrcOfDifference(Bits32(Xor(p, a[0] as bv32)), Bits32(Xor(q, b[0] as bv32)), a[1..], b[1..]);
      assert Difference(a, b)[1..] == Difference(a[1..], b[1..]);
    }
  }

  lemma FourBytesDiffer(crc: bv32, a: seq<bv8>, b: seq<bv8>)
    requires |a| == |b| <= 4 && Crc32Bitwise(crc, a) == Crc32Bitwise(crc, b)
    ensures a == b
  {
    var d := Difference(a, b);
    CrcOfDifference(crc, crc, a, b);
    assert Xor(crc, crc) == 0 && Xor(Crc32Bitwise(crc, a), Crc32Bitwise(crc, a)) == 0;
    hide Bits32, Xor, Crc32Bitwise, Word;
    OnlyItsOwnWord(0, d);
    ZeroWord(d);
    forall k | 0 <= k < |a|
      ensures a[k] == b[k]
    {
      assert d[k] == Apart(a[k], b[k]) == 0;
    }
  }

  /** A change confined to at most four bytes in a row never leaves the checksum as it was. */
  lemma FourBytesAreCaught(front: seq<bv8>, a: seq<bv8>, b: seq<bv8>, back: seq<bv8>)
    requires |a| == |b| <= 4 && a != b
    ensures Crc32(front + a + back) != Crc32(front + b + back)
  {
    hide Bits32, Xor, Crc32Bitwise;
    var init: bv32 := 0xFFFFFFFF;
    var crc := Crc32Bitwise(init, front);
    Crc32Append(init, front + a, back);
    Crc32Append(init, front, a);
    Crc32Append(init, front + b, back);
    Crc32Append(init, front, b);
    if Crc32(front + a + back) == Crc32(front + b + back) {
      XorSwap(Crc32Bitwise(init, front + a + back), Crc32Bitwise(init, front + b + back), 0xFFFFFFFF);
      Crc32Injective(Crc32Bitwise(crc, a), Crc32Bitwise(crc, b), back);
      FourBytesDiffer(crc, a, b);
    }
  }

  lemma Next(crc: bv32, d: seq<bv8>, k: nat, next: bv32)
    requires k < |d| && Bits32(Xor(crc, d[k] as bv32)) == next
    ensures Crc32Bitwise(crc, d[k..]) == Crc32Bitwise(next, d[k + 1..])
  {
    hide Bits32, Xor;
    assert d[k..][1..] == d[k + 1..];
  }

  /** The catalogued check value, that of the digits 1 to 9. */
  lemma CheckValue()
    ensures Crc32([0x31, 0x32, 0x33, 0x34, 0x35, 0x36, 0x37, 0x38, 0x39]) == 0xCBF43926
  {
    var d: seq<bv8> := [0x31, 0x32, 0x33, 0x34, 0x35, 0x36, 0x37, 0x38, 0x39];
    hide Crc32Bitwise;
    CheckRun(d);
  }

  lemma NothingMore(crc: bv32, d: seq<bv8>)
    ensures Crc32Bitwise(crc, d[|d|..]) == crc
  {
  }

  lemma CheckRun(d: seq<bv8>)
    requires |d| == 9 && d[0] == 0x31 && d[1] == 0x32 && d[2] == 0x33 && d[3] == 0x34 && d[4] == 0x35
    requires d[5] == 0x36 && d[6] == 0x37 && d[7] == 0x38 && d[8] == 0x39
    ensures Crc32Bitwise(0xFFFFFFFF, d) == 0x340BC6D9
  {
    CheckSteps();
    hide Bits32, Xor, Crc32Bitwise;
    assert d[0..] == d;
    Next(0xFFFFFFFF, d, 0, 0x7C231048);
    Next(0x7C231048, d, 1, 0xB0ACBB32);
    Next(0xB0ACBB32, d, 2, 0x77B79C2D);
    Next(0x77B79C2D, d, 3, 0x641C1F5C);
    Next(0x641C1F5C, d, 4, 0x340AC5E3);
    Next(0x340AC5E3, d, 5, 0xF68D2C9E);
    Next(0xF68D2C9E, d, 6, 0xAFFC9660);
    Next(0xAFFC9660, d, 7, 0x651F2550);
    Next(0x651F2550, d, 8, 0x340BC6D9);
    NothingMore(0x340BC6D9, d);
  }

  lemma CheckSteps()
    ensures Bits32(Xor(0xFFFFFFFF, 0x31)) == 0x7C231048
    ensures Bits32(Xor(0x7C231048, 0x32)) == 0xB0ACBB32
    ensures Bits32(Xor(0xB0ACBB32, 0x33)) == 0x77B79C2D
    ensures Bits32(Xor(0x77B79C2D, 0x34)) == 0x641C1F5C
    ensures Bits32(Xor(0x641C1F5C, 0x35)) == 0x340AC5E3
    ensures Bits32(Xor(0x340AC5E3, 0x36)) == 0xF68D2C9E
    ensures Bits32(Xor(0xF68D2C9E, 0x37)) == 0xAFFC9660
    ensures Bits32(Xor(0xAFFC9660, 0x38)) == 0x651F2550
    ensures Bits32(Xor(0x651F2550, 0x39)) == 0x340BC6D9
  {
  }
}
