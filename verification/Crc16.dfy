/** The checksum of the configuration files (crc16_ccitt_update, examples/05_config_file/config_file.c). */
module Crc16 {

  function Bit16(crc: bv16): bv16 {
    if crc & 0x8000 != 0 then (crc << 1) ^ 0x1021 else crc << 1
  }

  function Bits16(crc: bv16, n: nat): bv16 {
    if n == 0 then crc else Bit16(Bits16(crc, n - 1))
  }

  function Added(crc: bv16, b: bv8): bv16 {
    crc ^ ((b as bv16) << 8)
  }

  function Update(crc: bv16, data: seq<bv8>): bv16
    decreases |data|
  {
    if data == [] then crc else Update(Bits16(Added(crc, data[0]), 8), data[1..])
  }

  /** The checksum of a whole is that of its parts, one after the other. */
  lemma {:induction false} UpdateAppend(crc: bv16, a: seq<bv8>, b: seq<bv8>)
    ensures Update(crc, a + b) == Update(Update(crc, a), b)
    decreases |a|
  {
    hide Bits16, Added;
    if a == [] {
      assert a + b == b;
    } else {
      assert (a + b)[1..] == a[1..] + b;
      UpdateAppend(Bits16(Added(crc, a[0]), 8), a[1..], b);
    }
  }

  method Crc16CcittUpdate(init: bv16, data: seq<bv8>) returns (crc: bv16)
    ensures crc == Update(init, data)
  {
    hide Bit16, Added;
    crc := init;
    for i := 0 to |data|
      invariant crc == Update(init, data[..i])
    {
      ghost var before := Added(crc, data[i]);
      LastByte(init, data[..i], data[i]);
      assert data[..i + 1] == data[..i] + [data[i]];
      crc := Added(crc, data[i]);
      for bit := 0 to 8
        invariant crc == Bits16(before, bit)
      {
        crc := Bit16(crc);
      }
    }
    assert data[..|data|] == data;
  }

  lemma LastByte(crc: bv16, a: seq<bv8>, b: bv8)
    ensures Update(crc, a + [b]) == Bits16(Added(Update(crc, a), b), 8)
  {
    hide Bits16, Added;
    UpdateAppend(crc, a, [b]);
  }

  // What the checksum is for.

  function Byte16(crc: bv16): bv16 {
    Bit16(Bit16(Bit16(Bit16(Bit16(Bit16(Bit16(Bit16(crc))))))))
  }

  lemma BitsAreByte(crc: bv16)
    ensures Bits16(crc, 8) == Byte16(crc)
  {
    hide Bit16;
    assert Bits16(crc, 1) == Bit16(crc) && Bits16(crc, 2) == Bit16(Bits16(crc, 1));
    assert Bits16(crc, 3) == Bit16(Bits16(crc, 2)) && Bits16(crc, 4) == Bit16(Bits16(crc, 3));
    assert Bits16(crc, 5) == Bit16(Bits16(crc, 4)) && Bits16(crc, 6) == Bit16(Bits16(crc, 5));
    assert Bits16(crc, 7) == Bit16(Bits16(crc, 6));
  }

  function Xor(x: bv16, y: bv16): bv16 {
    x ^ y
  }

  lemma ShiftXor16(x: bv16, y: bv16)
    ensures (x ^ y) << 1 == (x << 1) ^ (y << 1)
    ensures (x ^ y) & 0x8000 == (x & 0x8000) ^ (y & 0x8000)
    ensures x & 0x8000 == 0 || x & 0x8000 == 0x8000
  {
  }

  lemma XorSwap16(a: bv16, b: bv16, c: bv16)
    ensures (a ^ b) ^ c == (a ^ c) ^ b == a ^ (b ^ c) && (a ^ c) ^ (b ^ c) == a ^ b
  {
  }

  lemma Bit16Linear(x: bv16, y: bv16)
    ensures Bit16(Xor(x, y)) == Xor(Bit16(x), Bit16(y))
  {
    ShiftXor16(x, y);
    ShiftXor16(y, x);
    XorSwap16(x << 1, y << 1, 0x1021);
  }

  /** The bit shifted out comes back at the low end. */
  lemma LowBit(x: bv16)
    ensures Bit16(x) & 1 == 1 <==> x & 0x8000 != 0
  {
  }

  function Up16(x: bv16): bv16 {
    x << 1
  }

  function Flip(x: bv16): bv16 {
    x ^ 0x1021
  }

  predicate Top(x: bv16) {
    x & 0x8000 != 0
  }

  lemma Bit16Is(x: bv16)
    ensures Bit16(x) == if Top(x) then Flip(Up16(x)) else Up16(x)
    ensures Bit16(x) & 1 == 1 <==> Top(x)
  {
    LowBit(x);
  }

  lemma UpAndFlip(x: bv16, y: bv16)
    ensures Up16(x) == Up16(y) && (Top(x) <==> Top(y)) ==> x == y
    ensures Flip(Flip(x)) == x
  {
  }

  lemma Bit16Injective(x: bv16, y: bv16)
    requires Bit16(x) == Bit16(y)
    ensures x == y
  {
    hide Bit16, Up16, Flip, Top;
    Bit16Is(x);
    Bit16Is(y);
    UpAndFlip(x, y);
    UpAndFlip(Up16(x), Up16(y));
    UpAndFlip(Up16(y), Up16(x));
  }

  lemma {:induction false} Bits16Linear(x: bv16, y: bv16, n: nat)
    ensures Bits16(Xor(x, y), n) == Xor(Bits16(x, n), Bits16(y, n))
    ensures Bits16(x, n) == Bits16(y, n) ==> x == y
  {
    hide Bit16, Xor;
    if n > 0 {
      Bits16Linear(x, y, n - 1);
      Bit16Linear(Bits16(x, n - 1), Bits16(y, n - 1));
      if Bits16(x, n) == Bits16(y, n) {
        Bit16Injective(Bits16(x, n - 1), Bits16(y, n - 1));
      }
    }
  }

  lemma AddedApart(p: bv16, q: bv16, a: bv8, b: bv8)
    ensures Xor(Added(p, a), Added(q, b)) == Added(Xor(p, q), a ^ b)
    ensures Added(p, a) == Added(q, a) ==> p == q
  {
  }

  lemma {:induction false} UpdateInjective(p: bv16, q: bv16, data: seq<bv8>)
    requires Update(p, data) == Update(q, data)
    ensures p == q
    decreases |data|
  {
    hide Bits16, Added;
    if data != [] {
      UpdateInjective(Bits16(Added(p, data[0]), 8), Bits16(Added(q, data[0]), 8), data[1..]);
      Bits16Linear(Added(p, data[0]), Added(q, data[0]), 8);
      AddedApart(p, q, data[0], data[0]);
    }
  }

  /** The bits of a byte that has gone through the register reach its low half. */
  lemma ByteSpreads(d: bv8, e: bv8)
    requires Byte16(Added(0, d)) == Added(0, e)
    ensures d == 0 && e == 0
  {
  }

  lemma FromZero(d: bv8, e: bv8)
    requires Bits16(Added(Bits16(Added(0, d), 8), e), 8) == 0
    ensures d == 0 && e == 0
  {
    var s := Bits16(Added(0, d), 8);
    assert Byte16(0) == 0;
    BitsAreByte(0);
    hide Bits16, Byte16;
    Bits16Linear(Added(s, e), 0, 8);
    assert s == Added(0, e);
    BitsAreByte(Added(0, d));
    ByteSpreads(d, e);
  }

  lemma TwoSteps(crc: bv16, a: bv8, b: bv8)
    ensures Update(crc, [a, b]) == Bits16(Added(Bits16(Added(crc, a), 8), b), 8)
  {
    hide Bits16, Added;
    assert [a, b][1..] == [b] && [b][1..] == [];
    var s := Bits16(Added(crc, a), 8);
    assert Update(crc, [a, b]) == Update(s, [b]);
    assert Update(s, [b]) == Update(Bits16(Added(s, b), 8), []);
  }

  lemma TwoBytesDiffer(crc: bv16, a: bv8, b: bv8, a': bv8, b': bv8)
    requires Update(crc, [a, b]) == Update(crc, [a', b'])
    ensures a == a' && b == b'
  {
    TwoSteps(crc, a, b);
    TwoSteps(crc, a', b');
    var s, s' := Bits16(Added(crc, a), 8), Bits16(Added(crc, a'), 8);
    var t, t' := Bits16(Added(s, b), 8), Bits16(Added(s', b'), 8);
    assert Xor(crc, crc) == 0 && Xor(t, t) == 0;
    hide Bits16, Added, Xor;
    AddedApart(crc, crc, a, a');
    Bits16Linear(Added(crc, a), Added(crc, a'), 8);
    AddedApart(s, s', b, b');
    Bits16Linear(Added(s, b), Added(s', b'), 8);
    FromZero(a ^ a', b ^ b');
    Same(a, a');
    Same(b, b');
  }

  lemma Same(a: bv8, b: bv8)
    requires a ^ b == 0
    ensures a == b
  {
  }

  /** A change confined to two bytes in a row never leaves the checksum as it was. */
  lemma TwoBytesAreCaught(init: bv16, front: seq<bv8>, a: bv8, b: bv8, a': bv8, b': bv8, back: seq<bv8>)
    requires a != a' || b != b'
    ensures Update(init, front + [a, b] + back) != Update(init, front + [a', b'] + back)
  {
    var crc := Update(init, front);
    UpdateAppend(init, front + [a, b], back);
    UpdateAppend(init, front, [a, b]);
    UpdateAppend(init, front + [a', b'], back);
    UpdateAppend(init, front, [a', b']);
    hide Update;
    if Update(init, front + [a, b] + back) == Update(init, front + [a', b'] + back) {
      UpdateInjective(Update(crc, [a, b]), Update(crc, [a', b']), back);
      TwoBytesDiffer(crc, a, b, a', b');
    }
  }

  lemma Next(crc: bv16, data: seq<bv8>, k: nat, next: bv16)
    requires k < |data| && Byte16(Added(crc, data[k])) == next
    ensures Update(crc, data[k..]) == Update(next, data[k + 1..])
  {
    hide Bits16, Byte16, Added;
    BitsAreByte(Added(crc, data[k]));
    assert data[k..][1..] == data[k + 1..];
  }

  /** The catalogued check value, that of the digits 1 to 9 from zero. */
  lemma CheckValue()
    ensures Update(0, [0x31, 0x32, 0x33, 0x34, 0x35, 0x36, 0x37, 0x38, 0x39]) == 0x31c3
  {
    var d: seq<bv8> := [0x31, 0x32, 0x33, 0x34, 0x35, 0x36, 0x37, 0x38, 0x39];
    hide Update;
    CheckRun(d);
  }

  lemma NothingMore(crc: bv16, d: seq<bv8>)
    ensures Update(crc, d[|d|..]) == crc
  {
  }

  lemma CheckRun(d: seq<bv8>)
    requires |d| == 9 && d[0] == 0x31 && d[1] == 0x32 && d[2] == 0x33 && d[3] == 0x34 && d[4] == 0x35
    requires d[5] == 0x36 && d[6] == 0x37 && d[7] == 0x38 && d[8] == 0x39
    ensures Update(0, d) == 0x31c3
  {
    CheckSteps();
    hide Byte16, Added, Update;
    assert d[0..] == d;
    Next(0, d, 0, 0x2672);
    Next(0x2672, d, 1, 0x20b5);
    Next(0x20b5, d, 2, 0x9752);
    Next(0x9752, d, 3, 0xd789);
    Next(0xd789, d, 4, 0x546c);
    Next(0x546c, d, 5, 0x20e4);
    Next(0x20e4, d, 6, 0x86d6);
    Next(0x86d6, d, 7, 0x9015);
    Next(0x9015, d, 8, 0x31c3);
    NothingMore(0x31c3, d);
  }

  lemma CheckSteps()
    ensures Byte16(Added(0, 0x31)) == 0x2672
    ensures Byte16(Added(0x2672, 0x32)) == 0x20b5
    ensures Byte16(Added(0x20b5, 0x33)) == 0x9752
    ensures Byte16(Added(0x9752, 0x34)) == 0xd789
    ensures Byte16(Added(0xd789, 0x35)) == 0x546c
    ensures Byte16(Added(0x546c, 0x36)) == 0x20e4
    ensures Byte16(Added(0x20e4, 0x37)) == 0x86d6
    ensures Byte16(Added(0x86d6, 0x38)) == 0x9015
    ensures Byte16(Added(0x9015, 0x39)) == 0x31c3
  {
  }
}
