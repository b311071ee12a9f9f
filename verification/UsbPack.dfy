/** The packs exchanged with the device and with applications: com/usbpack.c. */
module UsbPack {
  import opened Bytes
  import opened Framing

  type i32 = x: int | -0x8000_0000 <= x < 0x8000_0000

  datatype Pack = Pack(reqid: u32, msgid: u32, sta: i32, data: seq<byte>)

  const FIXPACKBASE := 19

  /** The bits of a signed word. */
  function Bits(x: i32): u32 {
    if x < 0 then x + 0x1_0000_0000 else x
  }

  function Signed(x: u32): i32 {
    if x < 0x8000_0000 then x else x - 0x1_0000_0000
  }

  function Be32(n: u32): (s: seq<byte>)
    ensures |s| == 4
  {
    [n / 0x100_0000, n / 0x1_0000 % 256, n / 256 % 256, n % 256]
  }

  function FromBe32(s: seq<byte>): u32
    requires |s| == 4
  {
    FromLe32([s[3], s[2], s[1], s[0]])
  }

  lemma Be32RoundTrip(n: u32)
    ensures FromBe32(Be32(n)) == n
  {
    var s := Be32(n);
    assert [s[3], s[2], s[1], s[0]] == Le32(n);
    Le32RoundTrip(n);
  }

  lemma FromBe32RoundTrip(s: seq<byte>)
    requires |s| == 4
    ensures Be32(FromBe32(s)) == s
  {
    var l := [s[3], s[2], s[1], s[0]];
    FromLe32RoundTrip(l);
    var b := Be32(FromBe32(s));
    assert Le32(FromLe32(l)) == [b[3], b[2], b[1], b[0]];
    assert b[0] == l[3] && b[1] == l[2] && b[2] == l[1] && b[3] == l[0];
  }

  function Header(p: Pack): (s: seq<byte>)
    ensures |s| == 12
  {
    Be32(p.reqid) + Be32(p.msgid) + Be32(Bits(p.sta))
  }

  function Encoded(p: Pack): (s: seq<byte>)
    requires |p.data| < 0x1_0000_0000
    ensures |s| == FIXPACKBASE + |p.data|
  {
    Encode(USB, Header(p), p.data)
  }

  function FromHeader(h: seq<byte>, data: seq<byte>): Pack
    requires |h| == 12
  {
    Pack(FromBe32(h[..4]), FromBe32(h[4..8]), Signed(FromBe32(h[8..])), data)
  }

  /** The pack in the valid frame at offset o. */
  function PackAt(s: seq<byte>, o: nat): Pack
    requires ValidAt(USB, s, o)
  {
    FromHeader(HeaderAt(USB, s, o), DataAt(USB, s, o))
  }

  lemma HeaderRoundTrip(p: Pack)
    ensures FromHeader(Header(p), p.data) == p
  {
    var h := Header(p);
    assert h[..4] == Be32(p.reqid) && h[4..8] == Be32(p.msgid) && h[8..] == Be32(Bits(p.sta));
    Be32RoundTrip(p.reqid);
    Be32RoundTrip(p.msgid);
    Be32RoundTrip(Bits(p.sta));
  }

  lemma FromHeaderRoundTrip(h: seq<byte>, data: seq<byte>)
    requires |h| == 12
    ensures Header(FromHeader(h, data)) == h
  {
    FromBe32RoundTrip(h[..4]);
    FromBe32RoundTrip(h[4..8]);
    FromBe32RoundTrip(h[8..]);
    assert h == h[..4] + h[4..8] + h[8..];
  }

  /** Unpacking inverts packing, whatever stands before and after the pack. */
  lemma PackRoundTrip(before: seq<byte>, p: Pack, after: seq<byte>)
    requires |p.data| < 0x1_0000_0000
    ensures var s := before + Encoded(p) + after;
      ValidAt(USB, s, |before|) && PackAt(s, |before|) == p && End(USB, s, |before|) == |before| + |Encoded(p)|
  {
    EncodeIsValid(USB, before, Header(p), p.data, after);
    HeaderRoundTrip(p);
  }

  /** Packing inverts unpacking: a valid frame is the packing of the pack read from it. */
  lemma UnpackRoundTrip(s: seq<byte>, o: nat)
    requires ValidAt(USB, s, o)
    ensures |PackAt(s, o).data| < 0x1_0000_0000
    ensures Encoded(PackAt(s, o)) == s[o..End(USB, s, o)]
  {
    ValidIsEncode(USB, s, o);
    FromHeaderRoundTrip(HeaderAt(USB, s, o), DataAt(USB, s, o));
  }

  /** The first eighteen bytes of a pack: both pack makers write these. */
  method WriteHead(buff: array<byte>, pack: Pack) returns (offset: nat)
    requires |pack.data| < 0x1_0000_0000 && FIXPACKBASE <= buff.Length
    modifies buff
    ensures offset == 18 && buff[..18] == Encoded(pack)[..18]
    ensures buff[18..] == old(buff[18..])
  {
    hide XorCheck;
    WriteFields(buff, pack);
    var orchk := XorCheckOf(buff, 0, 17);
    ghost var front := [0xaa] + Le32(|pack.data|) + Header(pack);
    assert buff[0..17] == front;
    buff[17] := orchk;
    offset := 18;
    assert buff[..18] == front + [orchk];
  }

  method WriteFields(buff: array<byte>, pack: Pack)
    requires |pack.data| < 0x1_0000_0000 && FIXPACKBASE <= buff.Length
    modifies buff
    ensures buff[..17] == [0xaa] + Le32(|pack.data|) + Header(pack)
    ensures forall k :: 17 <= k < buff.Length ==> buff[k] == old(buff[k])
  {
    var datalen := |pack.data|;
    buff[0] := 0xaa;
    buff[1], buff[2], buff[3], buff[4] :=
      datalen % 256, datalen / 256 % 256, datalen / 0x1_0000 % 256, datalen / 0x100_0000;
    Write32(buff, 5, pack.reqid);
    Write32(buff, 9, pack.msgid);
    Write32(buff, 13, Bits(pack.sta));
  }

  method Write32(buff: array<byte>, at: nat, n: u32)
    requires at + 4 <= buff.Length
    modifies buff
    ensures buff[at] == Be32(n)[0] && buff[at + 1] == Be32(n)[1]
    ensures buff[at + 2] == Be32(n)[2] && buff[at + 3] == Be32(n)[3]
    ensures forall k :: 0 <= k < buff.Length && !(at <= k < at + 4) ==> buff[k] == old(buff[k])
  {
    buff[at], buff[at + 1], buff[at + 2], buff[at + 3] :=
      n / 0x100_0000, n / 0x1_0000 % 256, n / 256 % 256, n % 256;
  }

  /** make_usbpack2buff: writes the pack at the start of the buffer if the length allowed it. */
  method MakeUsbpack2Buff(buff: array<byte>, len: nat, pack: Pack) returns (ret: int)
    requires len <= buff.Length && |pack.data| < 0x1_0000_0000
    modifies buff
    ensures ret == if len < |Encoded(pack)| then -1 else |Encoded(pack)|
    ensures ret < 0 ==> buff[..] == old(buff[..])
    ensures ret >= 0 ==> buff[..] == Encoded(pack) + old(buff[|Encoded(pack)|..])
  {
    var maxlen := FIXPACKBASE + |pack.data|;
    if len < maxlen {
      return -1;
    }
    var offset := WriteHead(buff, pack);
    forall k | 0 <= k < |pack.data| {
      buff[offset + k] := pack.data[k];
    }
    offset := offset + |pack.data|;
    buff[offset] := 0xbb;
    return maxlen;
  }

  /** make_usbpack2buff_head_only: the data is already in place, eighteen bytes into the buffer. */
  method MakeUsbpack2BuffHeadOnly(buff: array<byte>, len: nat, pack: Pack) returns (ret: int)
    requires len <= buff.Length && |pack.data| < 0x1_0000_0000
    requires len >= |Encoded(pack)| ==> buff[18..18 + |pack.data|] == pack.data
    modifies buff
    ensures ret == if len < |Encoded(pack)| then -1 else |Encoded(pack)|
    ensures ret < 0 ==> buff[..] == old(buff[..])
    ensures ret >= 0 ==> buff[..] == Encoded(pack) + old(buff[|Encoded(pack)|..])
  {
    var maxlen := FIXPACKBASE + |pack.data|;
    if len < maxlen {
      return -1;
    }
    ghost var was := buff[18..];
    var offset := WriteHead(buff, pack);
    assert buff[18..][..|pack.data|] == was[..|pack.data|] == pack.data;
    offset := offset + |pack.data|;
    buff[offset] := 0xbb;
    return maxlen;
  }

  /** unpack_usb_pack on the bufflen bytes of buff from index from: the smallest offset at which a
      complete valid frame starts, and the pack in it. */
  method UnpackUsbPack(buff: array<byte>, from: nat, bufflen: nat) returns (ret: int, usedlen: nat, pack: Option<Pack>)
    requires from + bufflen <= buff.Length && bufflen < 0x1_0000_0000
    ensures var s := buff[from..from + bufflen]; var o := Find(USB, s, 0);
      if o.Some? then ret == 0 && usedlen == End(USB, s, o.value) && pack == Some(PackAt(s, o.value))
      else ret == (if bufflen < FIXPACKBASE then -1 else -2) && pack == None
  {
    usedlen, pack := 0, None;
    if bufflen < FIXPACKBASE {
      return -1, 0, None;
    }
    ghost var s := buff[from..from + bufflen];
    var offset := 0;
    while offset <= bufflen - FIXPACKBASE
      invariant offset <= bufflen - FIXPACKBASE + 1
      invariant Find(USB, s, 0) == Find(USB, s, offset)
    {
      var good, datalen := CheckFrame(buff, from, bufflen, offset);
      if good {
        var found := ReadPack(buff, from, bufflen, offset, datalen);
        return 0, offset + FIXPACKBASE + datalen, Some(found);
      }
      offset := offset + 1;
    }
    return -2, 0, None;
  }

  /** The big-endian word at offset o of the bufflen bytes from index from. */
  method Read32(buff: array<byte>, from: nat, bufflen: nat, o: nat) returns (n: u32)
    requires from + bufflen <= buff.Length && o + 4 <= bufflen
    ensures n == FromBe32(buff[from..from + bufflen][o..o + 4])
  {
    var at := from + o;
    n := buff[at] as int * 0x100_0000 + buff[at + 1] as int * 0x1_0000 + buff[at + 2] as int * 256 + buff[at + 3] as int;
  }

  /** The fields of the frame found at offset. */
  method ReadPack(buff: array<byte>, from: nat, bufflen: nat, offset: nat, datalen: nat) returns (pack: Pack)
    requires from + bufflen <= buff.Length
    requires ValidAt(USB, buff[from..from + bufflen], offset)
    requires datalen == DataLen(USB, buff[from..from + bufflen], offset)
    ensures pack == PackAt(buff[from..from + bufflen], offset)
  {
    hide ValidAt, PackAt, FromBe32;
    ghost var s := buff[from..from + bufflen];
    EndBound(s, offset);
    HeaderWords(s, offset);
    var reqid := Read32(buff, from, bufflen, offset + 5);
    var msgid := Read32(buff, from, bufflen, offset + 9);
    var sta := Read32(buff, from, bufflen, offset + 13);
    var at := from + offset + 18;
    var data := buff[at..at + datalen];
    assert data == s[offset + 18..offset + 18 + datalen];
    pack := Pack(reqid, msgid, Signed(sta), data);
  }

  lemma EndBound(s: seq<byte>, o: nat)
    requires ValidAt(USB, s, o)
    ensures o + FIXPACKBASE + DataLen(USB, s, o) <= |s|
  {
  }

  lemma HeaderWords(s: seq<byte>, o: nat)
    requires ValidAt(USB, s, o)
    ensures PackAt(s, o) == Pack(FromBe32(s[o + 5..o + 9]), FromBe32(s[o + 9..o + 13]),
                                 Signed(FromBe32(s[o + 13..o + 17])), s[o + 18..o + 18 + DataLen(USB, s, o)])
  {
    SliceOfSlice(s, o + 5, o + 17, 0, 4);
    SliceOfSlice(s, o + 5, o + 17, 4, 8);
    SliceOfSlice(s, o + 5, o + 17, 8, 12);
  }

  /** The checks of one candidate offset, in the source's order. */
  method CheckFrame(buff: array<byte>, from: nat, bufflen: nat, offset: nat) returns (good: bool, datalen: nat)
    requires from + bufflen <= buff.Length && bufflen < 0x1_0000_0000 && offset + FIXPACKBASE <= bufflen
    ensures var s := buff[from..from + bufflen];
      good == ValidAt(USB, s, offset) && (good ==> datalen == DataLen(USB, s, offset))
  {
    hide XorCheck;
    var at := from + offset;
    ghost var s := buff[from..from + bufflen];
    datalen := 0;
    if buff[at] != 0xaa {
      return false, 0;
    }
    datalen := buff[at + 1] as int + 256 * buff[at + 2] as int + 0x1_0000 * buff[at + 3] as int
               + 0x100_0000 * buff[at + 4] as int;
    SliceOfSlice(buff[..], from, from + bufflen, offset + 1, offset + 5);
    var maxlen := FIXPACKBASE + datalen;
    if datalen > 0xFFFF_FFFF - FIXPACKBASE {
      return false, datalen;
    }
    if offset + maxlen - 1 >= bufflen {
      return false, datalen;
    }
    if buff[at + maxlen - 1] != 0xbb {
      return false, datalen;
    }
    var cal := XorCheckOf(buff, at, FIXPACKBASE - 2);
    SliceOfSlice(buff[..], from, from + bufflen, offset, offset + 17);
    good := cal == buff[at + FIXPACKBASE - 2];
  }
}
