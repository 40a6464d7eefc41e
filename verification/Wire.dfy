/** The 24-byte message header: three little-endian 64-bit words (message type,
    test id, packet id) at the start of every datagram. */
module Wire {
  newtype Byte = b: int | 0 <= b < 256

  const HEADER_LEN: nat := 24
  const U64_LIMIT: nat := 0x1_0000_0000_0000_0000

  datatype MessageType = INIT | MEASUREMENT | LAST

  datatype Header = Header(mtype: MessageType, testId: nat, packetId: nat)

  function Code(m: MessageType): (c: nat) {
    match m
    case INIT => 0
    case MEASUREMENT => 1
    case LAST => 2
  }

  // Little-endian words

  function Pow256(n: nat): nat {
    if n == 0 then 1 else 256 * Pow256(n - 1)
  }

  function LittleEndian(v: nat, n: nat): (r: seq<Byte>)
    ensures |r| == n
  {
    if n == 0 then [] else [(v % 256) as Byte] + LittleEndian(v / 256, n - 1)
  }

  function FromLittleEndian(s: seq<Byte>): nat {
    if |s| == 0 then 0 else s[0] as nat + 256 * FromLittleEndian(s[1..])
  }

  lemma Pow256Of8()
    ensures Pow256(8) == U64_LIMIT
  {
    assert Pow256(4) == 0x1_0000_0000;
    assert Pow256(6) == 0x1_0000_0000_0000;
  }

  /** Decoding an encoded word gives the word back as long as it fits. */
  lemma {:induction false} WordRoundTrip(v: nat, n: nat)
    requires v < Pow256(n)
    ensures FromLittleEndian(LittleEndian(v, n)) == v
  {
    if n == 0 {
    } else {
      WordRoundTrip(v / 256, n - 1);
      assert LittleEndian(v, n)[1..] == LittleEndian(v / 256, n - 1);
    }
  }

  lemma LowByte(b: nat, rest: nat)
    requires b < 256
    ensures (b + 256 * rest) % 256 == b && (b + 256 * rest) / 256 == rest
  {
  }

  /** Encoding a decoded word gives the bytes back. */
  lemma {:induction false} BytesRoundTrip(s: seq<Byte>)
    ensures LittleEndian(FromLittleEndian(s), |s|) == s
  {
    if |s| == 0 {
    } else {
      BytesRoundTrip(s[1..]);
      var rest := FromLittleEndian(s[1..]);
      LowByte(s[0] as nat, rest);
      assert s == [s[0]] + s[1..];
    }
  }

  /** The eight bytes of a 64-bit word; a word that fits is read back unchanged. */
  function EncodeWord(v: nat): (r: seq<Byte>)
    ensures |r| == 8
    ensures v < U64_LIMIT ==> FromLittleEndian(r) == v
  {
    Pow256Of8();
    assert v < U64_LIMIT ==> FromLittleEndian(LittleEndian(v, HEADER_LEN / 3)) == v by {
      if v < U64_LIMIT { WordRoundTrip(v, HEADER_LEN / 3); }
    }
    LittleEndian(v, HEADER_LEN / 3)
  }

  /** The word at offset `at` of a buffer. */
  function WordAt(buffer: seq<Byte>, at: nat): nat
    requires at + 8 <= |buffer|
  {
    FromLittleEndian(buffer[at..at + 8])
  }

  /** The bytes of a word in order, the lowest first. */
  lemma WordIsLittleEndian(buffer: seq<Byte>, at: nat)
    requires at + 8 <= |buffer|
    ensures WordAt(buffer, at) == WordBytes(buffer[at], buffer[at + 1], buffer[at + 2], buffer[at + 3],
                                            buffer[at + 4], buffer[at + 5], buffer[at + 6], buffer[at + 7])
  {
    var s := buffer[at..at + 8];
    LowestFirst(s);
    LowestFirst(s[1..]);
    LowestFirst(s[2..]);
    LowestFirst(s[3..]);
    LowestFirst(s[4..]);
    LowestFirst(s[5..]);
    LowestFirst(s[6..]);
    LowestFirst(s[7..]);
    hide FromLittleEndian;
  }

  lemma LowestFirst(s: seq<Byte>)
    requires |s| > 0
    ensures FromLittleEndian(s) == s[0] as nat + 256 * FromLittleEndian(s[1..])
    ensures |s| == 1 ==> FromLittleEndian(s[1..]) == 0
    ensures forall k :: 0 <= k < |s| - 1 ==> s[1..][k] == s[k + 1]
  {
  }

  function GetMessageTypeCode(buffer: seq<Byte>): nat
    requires |buffer| >= HEADER_LEN
  {
    WordAt(buffer, 0)
  }

  function GetTestId(buffer: seq<Byte>): nat
    requires |buffer| >= HEADER_LEN
  {
    WordAt(buffer, 8)
  }

  function GetPacketId(buffer: seq<Byte>): nat
    requires |buffer| >= HEADER_LEN
  {
    WordAt(buffer, 16)
  }

  function Serialize(h: Header): (r: seq<Byte>)
    ensures |r| == HEADER_LEN
  {
    EncodeWord(Code(h.mtype)) + EncodeWord(h.testId) + EncodeWord(h.packetId)
  }

  /** Every header field survives serialisation, whatever follows the header. */
  lemma SerializeRoundTrip(h: Header, payload: seq<Byte>)
    requires h.testId < U64_LIMIT && h.packetId < U64_LIMIT
    ensures GetMessageTypeCode(Serialize(h) + payload) == Code(h.mtype)
    ensures GetTestId(Serialize(h) + payload) == h.testId
    ensures GetPacketId(Serialize(h) + payload) == h.packetId
  {
    var d := Serialize(h) + payload;
    assert d[0..8] == EncodeWord(Code(h.mtype));
    assert d[8..16] == EncodeWord(h.testId);
    assert d[16..24] == EncodeWord(h.packetId);
  }

  /** The header on the wire: the type is the first byte, 0 for INIT, 1 for MEASUREMENT and 2 for
      LAST, with seven zero bytes behind it; the test id and the packet id follow, each with its
      lowest byte first. */
  lemma HeaderOnWire(h: Header)
    requires h.testId < U64_LIMIT && h.packetId < U64_LIMIT
    ensures
      var r := Serialize(h);
      && r[0] as nat == (match h.mtype case INIT => 0 case MEASUREMENT => 1 case LAST => 2)
      && r[1] == r[2] == r[3] == r[4] == r[5] == r[6] == r[7] == 0
      && WordBytes(r[8], r[9], r[10], r[11], r[12], r[13], r[14], r[15]) == h.testId
      && WordBytes(r[16], r[17], r[18], r[19], r[20], r[21], r[22], r[23]) == h.packetId
  {
    hide WordAt, Serialize, WordBytes, Code;
    HeaderWords(h);
    FirstWord(Serialize(h), h.mtype);
    WordIsLittleEndian(Serialize(h), 8);
    WordIsLittleEndian(Serialize(h), 16);
  }

  lemma FirstWord(r: seq<Byte>, m: MessageType)
    requires |r| >= 8 && WordAt(r, 0) == Code(m)
    ensures r[0] as nat == (match m case INIT => 0 case MEASUREMENT => 1 case LAST => 2)
    ensures r[1] == r[2] == r[3] == r[4] == r[5] == r[6] == r[7] == 0
  {
    hide WordAt, WordBytes;
    WordIsLittleEndian(r, 0);
    SmallWord(r[0], r[1], r[2], r[3], r[4], r[5], r[6], r[7], Code(m));
  }

  lemma HeaderWords(h: Header)
    requires h.testId < U64_LIMIT && h.packetId < U64_LIMIT
    ensures
      var r := Serialize(h);
      WordAt(r, 0) == Code(h.mtype) && WordAt(r, 8) == h.testId && WordAt(r, 16) == h.packetId
  {
    var r := Serialize(h);
    assert r[0..8] == EncodeWord(Code(h.mtype));
    assert r[8..16] == EncodeWord(h.testId);
    assert r[16..24] == EncodeWord(h.packetId);
  }

  lemma SmallWord(a: Byte, b: Byte, c: Byte, d: Byte, e: Byte, f: Byte, g: Byte, h: Byte, v: nat)
    requires WordBytes(a, b, c, d, e, f, g, h) == v < 256
    ensures a as nat == v && b == c == d == e == f == g == h == 0
  {
    assert b as nat == 0 && c as nat == 0 && d as nat == 0 && e as nat == 0;
    assert f as nat == 0 && g as nat == 0 && h as nat == 0;
  }

  function WordBytes(a: Byte, b: Byte, c: Byte, d: Byte, e: Byte, f: Byte, g: Byte, h: Byte): nat {
    a as nat + 0x100 * b as nat + 0x1_0000 * c as nat + 0x100_0000 * d as nat + 0x1_0000_0000 * e as nat
    + 0x100_0000_0000 * f as nat + 0x1_0000_0000_0000 * g as nat + 0x100_0000_0000_0000 * h as nat
  }

  /** The buffer after the id word of the packet starting at `start` is overwritten. */
  function SetPacketId(buffer: seq<Byte>, start: nat, id: nat): (r: seq<Byte>)
    requires start + HEADER_LEN <= |buffer|
    ensures |r| == |buffer|
    ensures forall k :: 0 <= k < |buffer| && !(start + 16 <= k < start + 24) ==> r[k] == buffer[k]
    ensures id < U64_LIMIT ==> WordAt(r, start + 16) == id
  {
    var r := buffer[..start + 16] + EncodeWord(id) + buffer[start + 24..];
    assert r[start + 16..start + 24] == EncodeWord(id);
    r
  }

  /** In-place form of `SetPacketId`: one store of a 64-bit word, byte by byte. */
  method SetPacketIdRaw(buffer: array<Byte>, start: nat, id: nat)
    requires start + HEADER_LEN <= buffer.Length
    modifies buffer
    ensures buffer[..] == SetPacketId(old(buffer[..]), start, id)
  {
    var word := EncodeWord(id);
    for i := 0 to 8
      invariant forall k :: 0 <= k < i ==> buffer[start + 16 + k] == word[k]
      invariant forall k :: 0 <= k < buffer.Length && !(start + 16 <= k < start + 16 + i) ==>
          buffer[k] == old(buffer[k])
    {
      buffer[start + 16 + i] := word[i];
    }
    assert buffer[start + 16..start + 24] == EncodeWord(id);
    assert buffer[..] == buffer[..start + 16] + buffer[start + 16..start + 24] + buffer[start + 24..];
    assert buffer[..start + 16] == old(buffer[..])[..start + 16];
    assert buffer[start + 24..] == old(buffer[..])[start + 24..];
  }
}
