/** SSZ bitlists and bitvectors: little-endian bits in bytes, a bitlist closed by one delimiting bit. */
module Bits {
  import opened Wrappers
  import Arithmetic

  type Byte = x: int | 0 <= x < 256

  datatype BitlistError = InvalidBitlist

  // ----- Bits of a number -----

  function ShiftRight(n: nat, k: nat): nat {
    if k == 0 then n else ShiftRight(n / 2, k - 1)
  }

  predicate Bit(n: nat, k: nat) {
    ShiftRight(n, k) % 2 == 1
  }

  /** `n | (1 << k)`. */
  function OrBit(n: nat, k: nat): nat {
    if k == 0 then (if n % 2 == 1 then n else n + 1) else 2 * OrBit(n / 2, k - 1) + n % 2
  }

  function BitLength(n: nat): nat {
    if n == 0 then 0 else 1 + BitLength(n / 2)
  }

  lemma {:induction false} BitOfOrBit(n: nat, k: nat, j: nat)
    ensures Bit(OrBit(n, k), j) <==> j == k || Bit(n, j)
    decreases k
  {
    if k > 0 && j > 0 {
      BitOfOrBit(n / 2, k - 1, j - 1);
    } else if k == 0 && j > 0 {
      assert OrBit(n, k) / 2 == n / 2;
    }
  }

  lemma {:induction false} OrBitStaysByte(n: nat, k: nat, width: nat)
    requires BitLength(n) <= width && k < width
    ensures BitLength(OrBit(n, k)) <= width
    decreases width
  {
    if k > 0 {
      OrBitStaysByte(n / 2, k - 1, width - 1);
      assert OrBit(n, k) / 2 == OrBit(n / 2, k - 1);
    } else {
      assert OrBit(n, k) / 2 == n / 2;
    }
  }

  /** The top bit of a number is the one below its length; above it there are none. */
  lemma {:induction false} TopBit(n: nat, k: nat)
    ensures n > 0 ==> Bit(n, BitLength(n) - 1)
    ensures k >= BitLength(n) ==> !Bit(n, k)
    decreases n
  {
    if n > 1 {
      TopBit(n / 2, if k > 0 then k - 1 else 0);
    } else if n == 0 && k > 0 {
      ZeroHasNoBits(k);
    } else if n == 1 && k > 0 {
      ZeroHasNoBits(k - 1);
    }
  }

  lemma {:induction false} ZeroHasNoBits(k: nat)
    ensures !Bit(0, k)
  {
    if k > 0 { ZeroHasNoBits(k - 1); }
  }

  lemma {:induction false} LengthByTopBit(n: nat, k: nat)
    requires Bit(n, k) && forall j :: j > k ==> !Bit(n, j)
    ensures BitLength(n) == k + 1
  {
    if n == 0 {
      ZeroHasNoBits(k);
    } else {
      TopBit(n, k);
      TopBit(n, BitLength(n) - 1);
    }
  }

  lemma {:induction false} SameBitsSameNumber(a: nat, b: nat, width: nat)
    requires BitLength(a) <= width && BitLength(b) <= width
    requires forall k :: 0 <= k < width ==> Bit(a, k) == Bit(b, k)
    ensures a == b
    decreases width
  {
    if width > 0 {
      assert Bit(a, 0) == Bit(b, 0);
      forall k | 0 <= k < width - 1 ensures Bit(a / 2, k) == Bit(b / 2, k) {
        assert Bit(a, k + 1) == Bit(b, k + 1);
      }
      SameBitsSameNumber(a / 2, b / 2, width - 1);
    }
  }

  lemma {:induction false} ByteLength(b: Byte)
    ensures BitLength(b) <= 8
  {
    assert Power2(4) == 16 && Power2(8) == 256;
    PowerLength(b, 8);
  }

  lemma {:induction false} ByteByLength(n: nat)
    requires BitLength(n) <= 8
    ensures n < 256
  {
    assert Power2(4) == 16 && Power2(8) == 256;
    PowerBound(n, 8);
  }

  function Power2(k: nat): (p: nat)
    ensures p > 0
  {
    if k == 0 then 1 else 2 * Power2(k - 1)
  }

  lemma {:induction false} PowerBound(n: nat, width: nat)
    requires BitLength(n) <= width
    ensures n < Power2(width)
    decreases width
  {
    if width > 0 { PowerBound(n / 2, width - 1); }
  }

  lemma {:induction false} PowerLength(n: nat, width: nat)
    requires n < Power2(width)
    ensures BitLength(n) <= width
    decreases width
  {
    if width > 0 { PowerLength(n / 2, width - 1); }
  }

  // ----- Bytes -----

  /** The integer the bytes spell, least significant first. */
  function Value(bytes: seq<Byte>): nat {
    if bytes == [] then 0 else bytes[0] + 256 * Value(bytes[1..])
  }

  lemma {:induction false} LengthOfShifted(n: nat, v: nat)
    requires n == v / 256 && n > 0
    ensures BitLength(v) == 8 + BitLength(n)
  {
    var h1 := v / 2; var h2 := h1 / 2; var h3 := h2 / 2; var h4 := h3 / 2;
    var h5 := h4 / 2; var h6 := h5 / 2; var h7 := h6 / 2;
    assert h7 / 2 == n;
    assert BitLength(v) == 1 + BitLength(h1) && BitLength(h1) == 1 + BitLength(h2);
    assert BitLength(h2) == 1 + BitLength(h3) && BitLength(h3) == 1 + BitLength(h4);
    assert BitLength(h4) == 1 + BitLength(h5) && BitLength(h5) == 1 + BitLength(h6);
    assert BitLength(h6) == 1 + BitLength(h7) && BitLength(h7) == 1 + BitLength(n);
  }

  /** The length of the whole is the length of the last byte after the bits of the others. */
  lemma {:induction false} LengthOfBytes(bytes: seq<Byte>)
    requires bytes != [] && bytes[|bytes| - 1] != 0
    ensures BitLength(Value(bytes)) == 8 * (|bytes| - 1) + BitLength(bytes[|bytes| - 1])
    ensures Value(bytes) > 0
  {
    if |bytes| == 1 {
      assert Value(bytes[1..]) == 0;
    } else {
      LengthOfBytes(bytes[1..]);
      LengthOfShifted(Value(bytes[1..]), Value(bytes));
    }
  }

  predicate BitAt(bytes: seq<Byte>, i: nat)
    requires i / 8 < |bytes|
  {
    Bit(bytes[i / 8], i % 8)
  }

  /** `(bytes[i // 8] >> i % 8) % 2`, with the shift as a division. */
  predicate IsSet(bytes: seq<Byte>, i: nat) {
    i < 8 * |bytes| && bytes[i / 8] / Power2(i % 8) % 2 == 1
  }

  lemma {:induction false} ShiftDivides(n: nat, k: nat)
    ensures Power2(k) > 0 && ShiftRight(n, k) == n / Power2(k)
  {
    if k > 0 {
      ShiftDivides(n / 2, k - 1);
      DivisionsCompose(n, Power2(k - 1));
    }
  }

  lemma {:induction false} DivisionsCompose(n: nat, p: nat)
    requires p > 0
    ensures n / 2 / p == n / (2 * p)
  {
    var q := n / (2 * p);
    var r := n - 2 * p * q;
    assert 0 <= r < 2 * p;
    assert n / 2 == p * q + r / 2;
    assert p * q <= n / 2 < p * q + p;
    Arithmetic.QuotientIs(n / 2, p, q);
  }

  /** Reading bits as the loop does is reading them off the numbers. */
  lemma {:induction false} BitIsSet(bytes: seq<Byte>, i: nat)
    requires i < 8 * |bytes|
    ensures BitAt(bytes, i) <==> IsSet(bytes, i)
  {
    ShiftDivides(bytes[i / 8], i % 8);
  }

  function BytesToBoolList(bytes: seq<Byte>, count: nat): (r: seq<bool>)
    requires count <= 8 * |bytes|
    ensures |r| == count && forall i :: 0 <= i < count ==> (r[i] <==> IsSet(bytes, i))
  {
    assert forall i :: 0 <= i < count ==> (BitAt(bytes, i) <==> IsSet(bytes, i)) by {
      forall i | 0 <= i < count ensures BitAt(bytes, i) <==> IsSet(bytes, i) { BitIsSet(bytes, i); }
    }
    seq(count, i requires 0 <= i < count => BitAt(bytes, i))
  }

  function BitvectorToList(bytes: seq<Byte>): (r: seq<bool>)
    ensures |r| == 8 * |bytes| && forall i :: 0 <= i < |r| ==> (r[i] <==> IsSet(bytes, i))
  {
    BytesToBoolList(bytes, 8 * |bytes|)
  }

  function BitlistToList(bytes: seq<Byte>): Result<seq<bool>, BitlistError> {
    if bytes == [] || bytes[|bytes| - 1] == 0 then Failure(InvalidBitlist)
    else
      LengthOfBytes(bytes);
      ByteLength(bytes[|bytes| - 1]);
      Success(BytesToBoolList(bytes, BitLength(Value(bytes)) - 1))
  }

  /** `bytes` is the serialization of `bits`: the bits in order, the delimiting bit, then zeros. */
  ghost predicate IsBitlistOf(bits: seq<bool>, bytes: seq<Byte>) {
    && |bytes| == |bits| / 8 + 1
    && forall i :: 0 <= i < 8 * |bytes| ==>
         (BitAt(bytes, i) <==> (i < |bits| && bits[i]) || i == |bits|)
  }

  function OrByte(b: Byte, k: nat): Byte
    requires k < 8
  {
    ByteLength(b);
    OrBitStaysByte(b, k, 8);
    ByteByLength(OrBit(b, k));
    OrBit(b, k)
  }

  /** `bytes[i // 8] |= 1 << (i % 8)`. */
  function WithBit(bytes: seq<Byte>, i: nat): (r: seq<Byte>)
    requires i / 8 < |bytes|
    ensures |r| == |bytes|
  {
    bytes[i / 8 := OrByte(bytes[i / 8], i % 8)]
  }

  lemma {:induction false} BitsAfterOr(bytes: seq<Byte>, i: nat)
    requires i / 8 < |bytes|
    ensures forall j :: 0 <= j < 8 * |bytes| ==> (BitAt(WithBit(bytes, i), j) <==> j == i || BitAt(bytes, j))
  {
    forall j | 0 <= j < 8 * |bytes| ensures BitAt(WithBit(bytes, i), j) <==> j == i || BitAt(bytes, j) {
      if i / 8 == j / 8 {
        BitOfOrBit(bytes[i / 8], i % 8, j % 8);
        assert j == 8 * (j / 8) + j % 8 && i == 8 * (i / 8) + i % 8;
      }
    }
  }

  method SerializeBitlist(bits: seq<bool>) returns (bytes: seq<Byte>)
    ensures IsBitlistOf(bits, bytes)
  {
    hide Bit, WithBit;
    var n := |bits|;
    bytes := seq(n / 8 + 1, _ => 0);
    forall j | 0 <= j < 8 * |bytes| ensures !BitAt(bytes, j) {
      ZeroHasNoBits(j % 8);
    }
    for i := 0 to n
      invariant |bytes| == n / 8 + 1
      invariant forall j :: 0 <= j < 8 * |bytes| ==> (BitAt(bytes, j) <==> j < i && bits[j])
    {
      if bits[i] {
        BitsAfterOr(bytes, i);
        bytes := WithBit(bytes, i);
      }
    }
    BitsAfterOr(bytes, n);
    bytes := WithBit(bytes, n);
  }

  // ----- Round trips -----

  /** In a serialization the top bit of the last byte is the delimiter. */
  lemma {:induction false} DelimiterIsTop(bits: seq<bool>, bytes: seq<Byte>)
    requires IsBitlistOf(bits, bytes)
    ensures bytes[|bytes| - 1] != 0
    ensures BitLength(bytes[|bytes| - 1]) == |bits| % 8 + 1
  {
    var n, last := |bits|, bytes[|bytes| - 1];
    assert BitAt(bytes, n);
    forall j | j > n % 8 ensures !Bit(last, j) {
      if j < 8 {
        var i := 8 * (n / 8) + j;
        assert i / 8 == n / 8 && i % 8 == j;
        assert !BitAt(bytes, i);
      } else {
        ByteLength(last);
        TopBit(last, j);
      }
    }
    LengthByTopBit(last, n % 8);
  }

  /** Decoding undoes encoding. */
  lemma {:induction false} DecodeOfEncode(bits: seq<bool>, bytes: seq<Byte>)
    requires IsBitlistOf(bits, bytes)
    ensures BitlistToList(bytes) == Success(bits)
  {
    DelimiterIsTop(bits, bytes);
    LengthOfBytes(bytes);
    assert BitLength(Value(bytes)) - 1 == |bits|;
    var decoded := BitlistToList(bytes).value;
    forall i | 0 <= i < |bits| ensures decoded[i] == bits[i] {
    }
    assert decoded == bits;
  }

  /** Encoding undoes decoding: only the serialization of some bits decodes to them. */
  lemma {:induction false} EncodeOfDecode(bytes: seq<Byte>, bits: seq<bool>)
    requires BitlistToList(bytes) == Success(bits)
    ensures IsBitlistOf(bits, bytes)
  {
    var last := bytes[|bytes| - 1];
    LengthOfBytes(bytes);
    ByteLength(last);
    var n := |bits|;
    assert n == 8 * (|bytes| - 1) + BitLength(last) - 1;
    assert BitLength(last) >= 1;
    assert n / 8 == |bytes| - 1 && n % 8 == BitLength(last) - 1;
    forall i | 0 <= i < 8 * |bytes| ensures BitAt(bytes, i) <==> (i < n && bits[i]) || i == n {
      if i >= n {
        assert i / 8 == |bytes| - 1;
        TopBit(last, i % 8);
      }
    }
  }

  /** A list of bits has one serialization. */
  lemma {:induction false} SerializationIsUnique(bits: seq<bool>, a: seq<Byte>, b: seq<Byte>)
    requires IsBitlistOf(bits, a) && IsBitlistOf(bits, b)
    ensures a == b
  {
    forall k | 0 <= k < |a| ensures a[k] == b[k] {
      ByteLength(a[k]);
      ByteLength(b[k]);
      forall j | 0 <= j < 8 ensures Bit(a[k], j) == Bit(b[k], j) {
        var i := 8 * k + j;
        assert i / 8 == k && i % 8 == j;
        assert BitAt(a, i) <==> BitAt(b, i);
      }
      SameBitsSameNumber(a[k], b[k], 8);
    }
  }
}
