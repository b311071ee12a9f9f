/** The frame shape shared by the usbpack and datagram codecs: a first byte, a 32-bit little-endian
    length, a fixed header, an xor check over all of these, the data, and a last byte. */
module Framing {
  import opened Bytes

  /** size counts every byte of a frame that is not data. */
  datatype Shape = Shape(first: byte, last: byte, size: nat)

  const USB := Shape(0xaa, 0xbb, 19)
  const DATAGRAM := Shape(0xab, 0xbc, 7)

  function XorByte(a: byte, b: byte): byte {
    ((a as bv8) ^ (b as bv8)) as byte
  }

  function XorFrom(start: byte, s: seq<byte>): byte {
    if s == [] then start else XorByte(XorFrom(start, s[..|s| - 1]), s[|s| - 1])
  }

  function XorCheck(s: seq<byte>): byte {
    XorFrom(0xff, s)
  }

  /** xor_check over len bytes of buff from index from. */
  method XorCheckOf(buff: array<byte>, from: nat, len: nat) returns (xor: byte)
    requires from + len <= buff.Length
    ensures xor == XorCheck(buff[from..from + len])
  {
    xor := 0xff;
    for i := 0 to len
      invariant xor == XorCheck(buff[from..from + i])
    {
      assert buff[from..from + i + 1][..i] == buff[from..from + i];
      xor := XorByte(xor, buff[from + i]);
    }
  }

  function Le32(n: nat): (s: seq<byte>)
    requires n < 0x1_0000_0000
    ensures |s| == 4
  {
    [n % 256, n / 256 % 256, n / 0x1_0000 % 256, n / 0x100_0000]
  }

  function FromLe32(s: seq<byte>): nat
    requires |s| == 4
  {
    s[0] as int + 256 * s[1] as int + 0x1_0000 * s[2] as int + 0x100_0000 * s[3] as int
  }

  lemma Le32RoundTrip(n: nat)
    requires n < 0x1_0000_0000
    ensures FromLe32(Le32(n)) == n
  {
  }

  lemma FromLe32RoundTrip(s: seq<byte>)
    requires |s| == 4
    ensures FromLe32(s) < 0x1_0000_0000 && Le32(FromLe32(s)) == s
  {
    var n := FromLe32(s);
    var b1, b2, b3: int := s[1], s[2], s[3];
    assert n / 256 == b1 + 256 * b2 + 0x1_0000 * b3;
    assert n / 0x1_0000 == b2 + 256 * b3;
  }

  predicate WellShaped(f: Shape) {
    7 <= f.size
  }

  /** A frame: its fixed header between length and check, and its data. */
  function Encode(f: Shape, header: seq<byte>, data: seq<byte>): (s: seq<byte>)
    requires WellShaped(f) && |header| == f.size - 7 && |data| < 0x1_0000_0000
    ensures |s| == f.size + |data|
  {
    var front := [f.first] + Le32(|data|) + header;
    front + [XorCheck(front)] + data + [f.last]
  }

  /** The data length announced at offset o. */
  function DataLen(f: Shape, s: seq<byte>, o: nat): nat
    requires WellShaped(f) && o + f.size <= |s|
  {
    FromLe32(s[o + 1..o + 5])
  }

  /** A complete, well-formed frame starts at offset o of s. */
  predicate ValidAt(f: Shape, s: seq<byte>, o: nat) {
    && WellShaped(f)
    && o + f.size <= |s|
    && s[o] == f.first
    && o + f.size + DataLen(f, s, o) <= |s|
    && s[o + f.size + DataLen(f, s, o) - 1] == f.last
    && XorCheck(s[o..o + f.size - 2]) == s[o + f.size - 2]
  }

  function End(f: Shape, s: seq<byte>, o: nat): (e: nat)
    requires ValidAt(f, s, o)
    ensures o < e <= |s|
  {
    o + f.size + DataLen(f, s, o)
  }

  function HeaderAt(f: Shape, s: seq<byte>, o: nat): seq<byte>
    requires ValidAt(f, s, o)
  {
    s[o + 5..o + f.size - 2]
  }

  function DataAt(f: Shape, s: seq<byte>, o: nat): seq<byte>
    requires ValidAt(f, s, o)
  {
    s[o + f.size - 1..End(f, s, o) - 1]
  }

  /** An encoded frame is valid wherever it stands, and gives back its header and data. */
  lemma EncodeIsValid(f: Shape, before: seq<byte>, header: seq<byte>, data: seq<byte>, after: seq<byte>)
    requires WellShaped(f) && |header| == f.size - 7 && |data| < 0x1_0000_0000
    ensures var s := before + Encode(f, header, data) + after;
      && ValidAt(f, s, |before|)
      && End(f, s, |before|) == |before| + f.size + |data|
      && HeaderAt(f, s, |before|) == header
      && DataAt(f, s, |before|) == data
  {
    var s := before + Encode(f, header, data) + after;
    var o := |before|;
    var front := [f.first] + Le32(|data|) + header;
    var e := Encode(f, header, data);
    Le32RoundTrip(|data|);
    hide Le32, FromLe32, XorCheck;
    assert e == front + [XorCheck(front)] + data + [f.last];
    assert s[o..o + |e|] == e;
    SliceOfSlice(s, o, o + |e|, 1, 5);
    SliceOfSlice(s, o, o + |e|, 0, f.size - 2);
    SliceOfSlice(s, o, o + |e|, 5, f.size - 2);
    SliceOfSlice(s, o, o + |e|, f.size - 1, |e| - 1);
    assert e[1..5] == Le32(|data|) && e[0..f.size - 2] == front && e[5..f.size - 2] == header;
    assert e[f.size - 1..|e| - 1] == data;
    assert s[o] == e[0] && s[o + |e| - 1] == e[|e| - 1] && s[o + f.size - 2] == e[f.size - 2];
  }

  /** A valid frame is the encoding of the header and data read from it, byte for byte. */
  lemma ValidIsEncode(f: Shape, s: seq<byte>, o: nat)
    requires ValidAt(f, s, o)
    ensures |DataAt(f, s, o)| < 0x1_0000_0000
    ensures s[o..End(f, s, o)] == Encode(f, HeaderAt(f, s, o), DataAt(f, s, o))
  {
    FromLe32RoundTrip(s[o + 1..o + 5]);
    var data := DataAt(f, s, o);
    var front := s[o..o + f.size - 2];
    assert front == [f.first] + Le32(|data|) + HeaderAt(f, s, o);
    assert s[o..End(f, s, o)] == front + [s[o + f.size - 2]] + data + [s[End(f, s, o) - 1]];
  }

  /** Validity depends only on the bytes of the frame. */
  lemma ValidIsLocal(f: Shape, s: seq<byte>, o: nat, s': seq<byte>, o': nat)
    requires ValidAt(f, s, o)
    requires o' + End(f, s, o) - o <= |s'|
    requires s'[o'..o' + End(f, s, o) - o] == s[o..End(f, s, o)]
    ensures ValidAt(f, s', o') && End(f, s', o') == o' + End(f, s, o) - o
  {
    var frame := s[o..End(f, s, o)];
    assert s'[o'] == frame[0] && s'[o' + |frame| - 1] == frame[|frame| - 1];
    assert s'[o' + f.size - 2] == frame[f.size - 2] == s[o + f.size - 2];
    SliceOfSlice(s, o, End(f, s, o), 1, 5);
    SliceOfSlice(s', o', o' + |frame|, 1, 5);
    SliceOfSlice(s, o, End(f, s, o), 0, f.size - 2);
    SliceOfSlice(s', o', o' + |frame|, 0, f.size - 2);
  }

  /** The smallest offset, from o on, at which a complete valid frame starts. */
  function Find(f: Shape, s: seq<byte>, o: nat): (r: Option<nat>)
    requires WellShaped(f)
    ensures r.Some? ==> o <= r.value && ValidAt(f, s, r.value)
    ensures forall p :: o <= p && ValidAt(f, s, p) ==> r.Some? && r.value <= p
    decreases |s| - o
  {
    if |s| < o + f.size then None
    else if ValidAt(f, s, o) then Some(o)
    else Find(f, s, o + 1)
  }

  /** What a reader takes from a buffer: the frames found one after another, and what is left. */
  datatype Taken = Taken(frames: seq<seq<byte>>, rest: seq<byte>)

  function Drain(f: Shape, s: seq<byte>): (t: Taken)
    requires WellShaped(f)
    ensures Find(f, t.rest, 0).None?
    ensures |t.rest| <= |s|
    decreases |s|
  {
    var o := Find(f, s, 0);
    if o.None? then Taken([], s)
    else
      var e := End(f, s, o.value);
      var t := Drain(f, s[e..]);
      Taken([s[o.value..e]] + t.frames, t.rest)
  }
}
