/**
 The packed bit vector of a status list: pkg/internal/common/utils/bitstring.go.
 Its bytes refine a sequence of booleans, `Bits`.
 */
module BitStrings {
  import opened Wrappers

  type byte = bv8

  const BITS_PER_BYTE := 8

  // Go's integer division and remainder round toward zero.
  function TruncDiv(a: int, b: nat): int
    requires b > 0
  {
    if a >= 0 then a / b else -((-a) / b)
  }

  function TruncMod(a: int, b: nat): int
    requires b > 0
  {
    a - b * TruncDiv(a, b)
  }

  // ---- The booleans the bytes stand for ----

  // The eight one-bit masks, written out.
  function Mask(n: nat): byte
    requires n < 8
  {
    if n < 4 then if n < 2 then if n == 0 then 1 else 2 else if n == 2 then 4 else 8
    else if n < 6 then if n == 4 then 16 else 32 else if n == 6 then 64 else 128
  }

  predicate BitOf(b: byte, n: nat)
    requires n < 8
  {
    b & Mask(n) != 0
  }

  // Bit p of a buffer is bit p mod 8 of byte p div 8, least significant first.
  function Bits(bytes: seq<byte>): (bits: seq<bool>)
    ensures |bits| == 8 * |bytes|
  {
    seq(8 * |bytes|, p requires 0 <= p < 8 * |bytes| => BitOf(bytes[p / 8], p % 8))
  }

  function WriteBit(b: byte, n: nat, v: bool): byte
    requires n < 8
  {
    if v then b | Mask(n) else b & !Mask(n)
  }

  // Shifting one left by n gives the mask of bit n.
  lemma ShiftIsMask(n: nat)
    requires n < 8
    ensures (1 as byte) << n == Mask(n)
  {
    if n == 0 { assert (1 as byte) << 0 == 1; }
    if n == 1 { assert (1 as byte) << 1 == 2; }
    if n == 2 { assert (1 as byte) << 2 == 4; }
    if n == 3 { assert (1 as byte) << 3 == 8; }
    if n == 4 { assert (1 as byte) << 4 == 16; }
    if n == 5 { assert (1 as byte) << 5 == 32; }
    if n == 6 { assert (1 as byte) << 6 == 64; }
    if n == 7 { assert (1 as byte) << 7 == 128; }
  }

  // Writing one bit of a byte gives it its value and disturbs no other.
  lemma WriteBitOf(b: byte, m: nat, n: nat, v: bool)
    requires m < 8 && n < 8
    ensures BitOf(WriteBit(b, m, v), n) == if m == n then v else BitOf(b, n)
  {
  }

  // Writing one byte writes one bit of the buffer.
  lemma ByteWritten(bytes: seq<byte>, p: nat, v: bool)
    requires p < 8 * |bytes|
    ensures Bits(bytes[p / 8 := WriteBit(bytes[p / 8], p % 8, v)]) == Bits(bytes)[p := v]
  {
    var written := bytes[p / 8 := WriteBit(bytes[p / 8], p % 8, v)];
    forall q {:trigger Bits(written)[q]} | 0 <= q < 8 * |bytes|
      ensures Bits(written)[q] == Bits(bytes)[p := v][q]
    {
      WriteBitOf(bytes[p / 8], p % 8, q % 8, v);
    }
  }

  // The bytes Set leaves behind: one bit changed, or nothing when the position is invalid.
  function SetBytes(bytes: seq<byte>, position: int, v: bool): seq<byte> {
    if 0 <= position < 8 * |bytes|
    then bytes[position / 8 := WriteBit(bytes[position / 8], position % 8, v)]
    else bytes
  }

  function ReadBit(bits: seq<bool>, position: int): Option<bool> {
    if 0 <= position < |bits| then Some(bits[position]) else None
  }

  // Bit p of a buffer is the bit of weight 2 to the p mod 8 in byte p div 8.
  lemma BitLayout(bytes: seq<byte>, p: nat, n: nat)
    requires p < 8 * |bytes| && n == p % 8
    ensures Bits(bytes)[p] <==> bytes[p / 8] & ((1 as byte) << n) != 0
  {
    ShiftIsMask(n);
  }

  lemma SetBytesBits(bytes: seq<byte>, position: int, v: bool)
    ensures |SetBytes(bytes, position, v)| == |bytes|
    ensures Bits(SetBytes(bytes, position, v)) ==
            if 0 <= position < 8 * |bytes| then Bits(bytes)[position := v] else Bits(bytes)
  {
    if 0 <= position < 8 * |bytes| { ByteWritten(bytes, position, v); }
  }

  // gzip plus base64url: an encoder and a decoder that rejects what it cannot read.
  datatype Codec = Codec(encode: seq<byte> -> string, decode: string -> Option<seq<byte>>) {
    ghost predicate Lossless() {
      forall bytes :: decode(encode(bytes)) == Some(bytes)
    }
  }

  class BitString {
    var bits: array<byte>
    var numBits: int

    ghost function Contents(): (s: seq<bool>)
      reads this, bits
    {
      Bits(bits[..])
    }

    // NewBitString; a length below -14 makes Go's make panic.
    constructor New(length: int)
      requires 1 + TruncDiv(length - 1, BITS_PER_BYTE) >= 0
      ensures fresh(bits)
      ensures bits[..] == seq(1 + TruncDiv(length - 1, BITS_PER_BYTE), _ => 0)
      ensures length >= 1 ==> length <= |Contents()| < length + 8
      ensures forall p :: 0 <= p < |Contents()| ==> !Contents()[p]
      ensures numBits == length
    {
      var size := 1 + TruncDiv(length - 1, BITS_PER_BYTE);
      bits := new byte[size](_ => 0);
      numBits := length;
    }

    // DecodeBits; the decoded string keeps no length of its own.
    constructor Wrap(bytes: seq<byte>)
      ensures fresh(bits) && bits[..] == bytes && numBits == 0
    {
      bits := new byte[|bytes|](i requires 0 <= i < |bytes| => bytes[i]);
      numBits := 0;
    }

    static method DecodeBits(codec: Codec, encodedBits: string) returns (r: Option<BitString>)
      ensures r.None? <==> codec.decode(encodedBits).None?
      ensures r.Some? ==> fresh(r.value) && fresh(r.value.bits)
                          && codec.decode(encodedBits) == Some(r.value.bits[..])
    {
      var decoded := codec.decode(encodedBits);
      if decoded.None? {
        return None;
      }
      var b := new BitString.Wrap(decoded.value);
      r := Some(b);
    }

    method Set(position: int, bitSet: bool) returns (ok: bool)
      modifies bits
      ensures ok <==> 0 <= position < |old(Contents())|
      ensures Contents() == if ok then old(Contents())[position := bitSet] else old(Contents())
      ensures bits[..] == SetBytes(old(bits[..]), position, bitSet)
    {
      var nByte := TruncDiv(position, BITS_PER_BYTE);
      var nBit := TruncMod(position, BITS_PER_BYTE);
      if position < 0 || nByte > bits.Length - 1 {
        return false;
      }
      ShiftIsMask(nBit);
      ByteWritten(bits[..], position, bitSet);
      ghost var before := bits[..];
      if bitSet {
        var mask := (1 as byte) << nBit;
        bits[nByte] := bits[nByte] | mask;
      } else {
        var mask := !((1 as byte) << nBit);
        bits[nByte] := bits[nByte] & mask;
      }
      assert bits[..] == before[nByte := WriteBit(before[nByte], nBit, bitSet)];
      ok := true;
    }

    method Get(position: int) returns (r: Option<bool>)
      ensures r == ReadBit(Contents(), position)
    {
      var nByte := TruncDiv(position, BITS_PER_BYTE);
      var nBit := TruncMod(position, BITS_PER_BYTE);
      if position < 0 || nByte > bits.Length - 1 {
        return None;
      }
      ShiftIsMask(nBit);
      r := Some(bits[nByte] & ((1 as byte) << nBit) != 0);
    }

    method EncodeBits(codec: Codec) returns (s: string)
      requires codec.Lossless()
      ensures s == codec.encode(bits[..])
      ensures codec.decode(s) == Some(bits[..])
    {
      s := codec.encode(bits[..]);
    }
  }

  // ---- Any sequence of writes and of trips through the encoding ----

  datatype BitOp = SetOp(position: int, value: bool) | Recode

  // The last in-range value written at p, or what was there to begin with.
  function LastWritten(ops: seq<BitOp>, p: int, initially: bool): bool {
    if ops == [] then initially
    else
      var op := ops[|ops| - 1];
      if op.SetOp? && op.position == p then op.value
      else LastWritten(ops[..|ops| - 1], p, initially)
  }

  // The buffer after the operations; a buffer that no longer decodes is lost.
  function Replay(codec: Codec, bytes: seq<byte>, ops: seq<BitOp>): Option<seq<byte>> {
    if ops == [] then Some(bytes)
    else
      var before := Replay(codec, bytes, ops[..|ops| - 1]);
      if before.None? then None
      else match ops[|ops| - 1]
        case SetOp(p, v) => Some(SetBytes(before.value, p, v))
        case Recode => codec.decode(codec.encode(before.value))
  }

  // Get at p returns the last value set at p, whatever else happened to the buffer.
  lemma {:induction false} LastWriteWins(codec: Codec, bytes: seq<byte>, ops: seq<BitOp>, p: int)
    requires codec.Lossless()
    ensures var after := Replay(codec, bytes, ops);
            && after.Some?
            && |after.value| == |bytes|
            && ReadBit(Bits(after.value), p) ==
               (if 0 <= p < |Bits(bytes)| then Some(LastWritten(ops, p, Bits(bytes)[p])) else None)
  {
    if ops != [] {
      LastWriteWins(codec, bytes, ops[..|ops| - 1], p);
      var before := Replay(codec, bytes, ops[..|ops| - 1]).value;
      match ops[|ops| - 1]
      case SetOp(q, v) =>
        SetBytesBits(before, q, v);
      case Recode =>
    }
  }
}
