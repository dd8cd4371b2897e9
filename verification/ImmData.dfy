/** The 32-bit immediate of the sliding-window path: buffer id, window id and data size. */
module ImmData {

  const TWO_32 := 0x1_0000_0000
  const TWO_24 := 0x100_0000
  const TWO_16 := 0x1_0000

  predicate Word(x: int) {
    0 <= x < TWO_32
  }

  /** Shift and mask each field to its place; the additions wrap at 32 bits. */
  function Pack(bufferId: nat, windowId: nat, len: nat): (imm: nat)
    requires Word(bufferId) && Word(windowId) && Word(len)
    ensures Word(imm)
  {
    ((bufferId % 256) * TWO_24 + len + (windowId % 256) * TWO_16) % TWO_32
  }

  function SizeField(imm: nat): nat {
    imm % TWO_16
  }

  function BufferField(imm: nat): nat {
    (imm / TWO_24) % 256
  }

  function WindowField(imm: nat): nat {
    (imm / TWO_16) % 256
  }

  /** `htonl` and `ntohl` on a little-endian host. */
  function SwapBytes(x: nat): (r: nat)
    requires Word(x)
    ensures Word(r)
  {
    (x % 256) * TWO_24 + ((x / 256) % 256) * TWO_16 + ((x / TWO_16) % 256) * 256 + x / TWO_24
  }

  function FromBytes(b3: nat, b2: nat, b1: nat, b0: nat): nat {
    b3 * TWO_24 + b2 * TWO_16 + b1 * 256 + b0
  }

  lemma BytesOf(b3: nat, b2: nat, b1: nat, b0: nat)
    requires b3 < 256 && b2 < 256 && b1 < 256 && b0 < 256
    ensures var x := FromBytes(b3, b2, b1, b0);
            Word(x) && x % 256 == b0 && (x / 256) % 256 == b1 && (x / TWO_16) % 256 == b2 && x / TWO_24 == b3
  {
    var x := FromBytes(b3, b2, b1, b0);
    assert x / 256 == b3 * TWO_16 + b2 * 256 + b1;
    assert x / TWO_16 == b3 * 256 + b2;
  }

  /** Every word is made of its four bytes. */
  lemma Bytes(x: nat) returns (b3: nat, b2: nat, b1: nat, b0: nat)
    requires Word(x)
    ensures b3 < 256 && b2 < 256 && b1 < 256 && b0 < 256 && x == FromBytes(b3, b2, b1, b0)
  {
    b0 := x % 256;
    var y := x / 256;
    b1 := y % 256;
    var z := y / 256;
    b2 := z % 256;
    b3 := z / 256;
  }

  lemma SwapTwice(x: nat)
    requires Word(x)
    ensures SwapBytes(SwapBytes(x)) == x
  {
    var b3, b2, b1, b0 := Bytes(x);
    BytesOf(b3, b2, b1, b0);
    BytesOf(b0, b1, b2, b3);
  }

  lemma Fields(bufferId: nat, windowId: nat, len: nat)
    requires bufferId < 256 && windowId < 256 && len < TWO_16
    ensures var imm := Pack(bufferId, windowId, len);
            BufferField(imm) == bufferId && WindowField(imm) == windowId && SizeField(imm) == len
  {
    var imm := bufferId * TWO_24 + len + windowId * TWO_16;
    assert imm < TWO_32 && Pack(bufferId, windowId, len) == imm;
    assert imm / TWO_16 == bufferId * 256 + windowId;
    assert imm / TWO_24 == bufferId;
  }

  /** The layout: buffer id, window id and length in 8, 8 and 16 bits, from the top, in the sender's byte order. */
  lemma PackLayout(bufferId: nat, windowId: nat, len: nat)
    requires bufferId < 256 && windowId < 256 && len < 65536
    ensures Pack(bufferId, windowId, len) == bufferId * 16777216 + windowId * 65536 + len
    ensures SwapBytes(Pack(bufferId, windowId, len)) == (len % 256) * 16777216 + (len / 256) * 65536 + windowId * 256 + bufferId
  {
    assert Pack(bufferId, windowId, len) == FromBytes(bufferId, windowId, len / 256, len % 256);
    BytesOf(bufferId, windowId, len / 256, len % 256);
  }

  /** Swapping puts the four bytes into the opposite order. */
  lemma SwapReverses(b3: nat, b2: nat, b1: nat, b0: nat)
    requires b3 < 256 && b2 < 256 && b1 < 256 && b0 < 256
    ensures Word(b3 * 16777216 + b2 * 65536 + b1 * 256 + b0)
    ensures SwapBytes(b3 * 16777216 + b2 * 65536 + b1 * 256 + b0) == b0 * 16777216 + b1 * 65536 + b2 * 256 + b3
  {
    BytesOf(b3, b2, b1, b0);
    assert b3 * 16777216 + b2 * 65536 + b1 * 256 + b0 == FromBytes(b3, b2, b1, b0);
  }

  /** The fields in an immediate on the wire. */
  lemma WireFields(imm: nat)
    requires Word(imm)
    ensures BufferField(SwapBytes(imm)) == imm % 256 && WindowField(SwapBytes(imm)) == (imm / 256) % 256
    ensures SizeField(SwapBytes(imm)) == ((imm / 65536) % 256) * 256 + imm / 16777216
  {
    var b3, b2, b1, b0 := Bytes(imm);
    BytesOf(b3, b2, b1, b0);
    SwappedFields(b0, b1, b2, b3);
  }

  lemma SwappedFields(b3: nat, b2: nat, b1: nat, b0: nat)
    requires b3 < 256 && b2 < 256 && b1 < 256 && b0 < 256
    ensures var x := FromBytes(b3, b2, b1, b0);
            BufferField(x) == b3 && WindowField(x) == b2 && SizeField(x) == b1 * 256 + b0
  {
    BytesOf(b3, b2, b1, b0);
  }

  /** What the receiver reads from the immediate on the wire. */
  function Received(bufferId: nat, windowId: nat, len: nat): (imm: nat)
    requires Word(bufferId) && Word(windowId) && Word(len)
  {
    SwapBytes(SwapBytes(Pack(bufferId, windowId, len)))
  }

  /** For ids of one byte, the fields come back as packed exactly when the length fits its 16 bits. */
  lemma PackParse(bufferId: nat, windowId: nat, len: nat)
    requires bufferId < 256 && windowId < 256 && Word(len)
    ensures BufferField(Received(bufferId, windowId, len)) == bufferId
            && WindowField(Received(bufferId, windowId, len)) == windowId
            && SizeField(Received(bufferId, windowId, len)) == len
            <==> len < TWO_16
  {
    SwapTwice(Pack(bufferId, windowId, len));
    if len < TWO_16 {
      Fields(bufferId, windowId, len);
    }
  }
}
