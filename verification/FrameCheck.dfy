/** What the xor check of a frame is worth, and what frames look like on the wire (com/usbpack.c,
    app/ar8030/session_socket_datagram_ext.c). */
module FrameCheck {
  import opened Bytes
  import opened Framing
  import UsbPack
  import Datagram

  function Bits(a: byte): bv8 {
    a as bv8
  }

  function Number(x: bv8): byte {
    x as int
  }

  lemma BitsOfNumber(x: bv8)
    ensures Bits(Number(x)) == x
  {
  }

  lemma NumberNext(x: bv8)
    requires x < 255
    ensures Number(x + 1) == Number(x) + 1
  {
  }

  lemma {:induction false} BitsFor(a: byte) returns (x: bv8)
    ensures Number(x) == a
    decreases a
  {
    if a == 0 {
      x := 0;
    } else {
      var y := BitsFor(a - 1);
      assert y < 255;
      NumberNext(y);
      x := y + 1;
    }
  }

  lemma NumberOfBits(a: byte)
    ensures Number(Bits(a)) == a
  {
    hide Number, Bits;
    var x := BitsFor(a);
    BitsOfNumber(x);
  }

  lemma XorIs(a: byte, b: byte)
    ensures XorByte(a, b) == Number(Bits(a) ^ Bits(b))
  {
  }

  lemma BitsKeepApart(a: bv8, b: bv8, c: bv8)
    ensures (a ^ c == b ^ c <==> a == b) && a ^ c == c ^ a && (a ^ b) ^ c == (a ^ c) ^ b
  {
  }

  lemma XorKeepsApart(a: byte, b: byte, c: byte)
    ensures XorByte(a, c) == XorByte(b, c) <==> a == b
    ensures XorByte(c, a) == XorByte(c, b) <==> a == b
  {
    hide XorByte, Number, Bits;
    XorIs(a, c);
    XorIs(b, c);
    XorIs(c, a);
    XorIs(c, b);
    BitsKeepApart(Bits(a), Bits(b), Bits(c));
    BitsKeepApart(Bits(b), Bits(a), Bits(c));
    BitsOfNumber(Bits(a) ^ Bits(c));
    BitsOfNumber(Bits(b) ^ Bits(c));
    NumberOfBits(a);
    NumberOfBits(b);
  }

  /** One changed byte changes the check. */
  lemma {:induction false} OneByteMatters(start: byte, s: seq<byte>, s': seq<byte>, p: nat)
    requires OnlyDiffersAt(s, s', p)
    ensures XorFrom(start, s) != XorFrom(start, s')
    decreases |s|
  {
    hide XorByte;
    var n := |s| - 1;
    if p == n {
      assert s[..n] == s'[..n];
      XorKeepsApart(s[n], s'[n], XorFrom(start, s[..n]));
    } else {
      OneByteMatters(start, s[..n], s'[..n], p);
      XorKeepsApart(XorFrom(start, s[..n]), XorFrom(start, s'[..n]), s[n]);
    }
  }

  lemma HeadChangeIsCaught(f: Shape, s: seq<byte>, s': seq<byte>, o: nat, p: nat)
    requires ValidAt(f, s, o) && OnlyDiffersAt(s, s', p) && o <= p <= o + f.size - 2
    ensures !ValidAt(f, s', o)
  {
    var n := o + f.size - 2;
    if p < n {
      OneByteMatters(0xff, s[o..n], s'[o..n], p - o);
    } else {
      assert s[o..n] == s'[o..n];
    }
  }

  /** Of a frame, a single changed byte is noticed if and only if it is not one of the data. */
  lemma OneByteIsCaughtIff(f: Shape, s: seq<byte>, s': seq<byte>, o: nat, p: nat)
    requires ValidAt(f, s, o) && OnlyDiffersAt(s, s', p) && o <= p < End(f, s, o)
    ensures ValidAt(f, s', o) <==> o + f.size - 1 <= p < End(f, s, o) - 1
  {
    if p <= o + f.size - 2 {
      HeadChangeIsCaught(f, s, s', o, p);
    } else {
      assert s[o + 1..o + 5] == s'[o + 1..o + 5];
      assert s[o..o + f.size - 2] == s'[o..o + f.size - 2];
    }
  }

  // On the wire.

  lemma {:induction false} XorConcat(start: byte, a: seq<byte>, b: seq<byte>)
    ensures XorFrom(start, a + b) == XorFrom(XorFrom(start, a), b)
    decreases |b|
  {
    hide XorByte;
    if b == [] {
      assert a + b == a;
    } else {
      var n := |b| - 1;
      assert (a + b)[..|a + b| - 1] == a + b[..n];
      XorConcat(start, a, b[..n]);
    }
  }

  function Xor4(start: byte, s: seq<byte>): byte
    requires |s| == 4
  {
    XorByte(XorByte(XorByte(XorByte(start, s[0]), s[1]), s[2]), s[3])
  }

  lemma FourBytes(start: byte, s: seq<byte>)
    requires |s| == 4
    ensures XorFrom(start, s) == Xor4(start, s)
  {
    hide XorByte;
    assert s[..3][..2] == s[..2] && s[..2][..1] == s[..1] && s[..1][..0] == [];
    assert XorFrom(start, s[..0]) == start;
    assert XorFrom(start, s[..1]) == XorByte(start, s[0]);
    assert XorFrom(start, s[..2]) == XorByte(XorByte(start, s[0]), s[1]);
    assert XorFrom(start, s[..3]) == XorByte(XorByte(XorByte(start, s[0]), s[1]), s[2]);
  }

  /** The check of a usbpack's seventeen bytes, four by four. */
  lemma HeadCheck(len: seq<byte>, a: seq<byte>, b: seq<byte>, c: seq<byte>)
    requires |len| == |a| == |b| == |c| == 4
    ensures XorCheck([0xaa] + len + (a + b + c)) == Xor4(Xor4(Xor4(Xor4(0x55, len), a), b), c)
  {
    var front: seq<byte> := [0xaa];
    assert XorFrom(0xff, front) == 0x55 by {
      assert front[..0] == [];
      assert XorByte(0xff, 0xaa) == 0x55;
    }
    hide XorByte, Xor4;
    assert front + len + (a + b + c) == (((front + len) + a) + b) + c;
    XorConcat(0xff, front, len);
    XorConcat(0xff, front + len, a);
    XorConcat(0xff, front + len + a, b);
    XorConcat(0xff, front + len + a + b, c);
    FourBytes(0x55, len);
    FourBytes(Xor4(0x55, len), a);
    FourBytes(Xor4(Xor4(0x55, len), a), b);
    FourBytes(Xor4(Xor4(Xor4(0x55, len), a), b), c);
  }

  /** The pack without content: sixteen zeros, and the check of the first byte alone. */
  lemma EmptyPack()
    ensures UsbPack.Encoded(UsbPack.Pack(0, 0, 0, []))
         == [0xaa] + [0, 0, 0, 0] + [0, 0, 0, 0] + [0, 0, 0, 0] + [0, 0, 0, 0] + [0x55, 0xbb]
  {
    var zero: seq<byte> := [0, 0, 0, 0];
    assert UsbPack.Be32(0) == zero && Le32(0) == zero;
    HeadCheck(zero, zero, zero, zero);
    assert Xor4(0x55, zero) == 0x55;
  }

  /** Byte orders: the length is little-endian, the words are big-endian, and a status is its bits. */
  lemma SamplePack()
    ensures UsbPack.Encoded(UsbPack.Pack(0x01020304, 0x05060708, -2, [9]))
         == [0xaa] + [1, 0, 0, 0] + ([1, 2, 3, 4] + [5, 6, 7, 8] + [0xff, 0xff, 0xff, 0xfe]) + [0x5d] + [9] + [0xbb]
  {
    SampleWords();
    SampleChecks();
    HeadCheck([1, 0, 0, 0], [1, 2, 3, 4], [5, 6, 7, 8], [0xff, 0xff, 0xff, 0xfe]);
    hide XorByte, Xor4, XorCheck, UsbPack.Be32, Le32;
  }

  lemma SampleWords()
    ensures UsbPack.Be32(0x01020304) == [1, 2, 3, 4] && UsbPack.Be32(0x05060708) == [5, 6, 7, 8]
    ensures UsbPack.Be32(UsbPack.Bits(-2)) == [0xff, 0xff, 0xff, 0xfe] && Le32(1) == [1, 0, 0, 0]
  {
  }

  lemma SampleChecks()
    ensures Xor4(0x55, [1, 0, 0, 0]) == 0x54 && Xor4(0x54, [1, 2, 3, 4]) == 0x50
    ensures Xor4(0x50, [5, 6, 7, 8]) == 0x5c && Xor4(0x5c, [0xff, 0xff, 0xff, 0xfe]) == 0x5d
  {
    assert XorByte(0x55, 1) == 0x54 && XorByte(0x54, 0) == 0x54;
    assert XorByte(0x54, 1) == 0x55 && XorByte(0x55, 2) == 0x57 && XorByte(0x57, 3) == 0x54 && XorByte(0x54, 4) == 0x50;
    assert XorByte(0x50, 5) == 0x55 && XorByte(0x55, 6) == 0x53 && XorByte(0x53, 7) == 0x54 && XorByte(0x54, 8) == 0x5c;
    assert XorByte(0x5c, 0xff) == 0xa3 && XorByte(0xa3, 0xff) == 0x5c && XorByte(0xa3, 0xfe) == 0x5d;
  }

  lemma SampleDatagram()
    ensures Datagram.Encoded([9]) == [0xab, 1, 0, 0, 0, 0x55, 9, 0xbc]
  {
    var front: seq<byte>, len: seq<byte> := [0xab], [1, 0, 0, 0];
    assert Le32(1) == len;
    assert XorFrom(0xff, front) == 0x54 by {
      assert front[..0] == [];
      assert XorByte(0xff, 0xab) == 0x54;
    }
    XorConcat(0xff, front, len);
    FourBytes(0x54, len);
    assert Xor4(0x54, len) == 0x55;
    assert front + len + [] == front + len;
  }
}
