/** Python's `int.to_bytes`: big-endian, of a fixed length, overflowing when the number does not fit. */
module Encoding {
  import opened Wrappers
  import Arithmetic
  import Bits

  type Byte = Bits.Byte

  type Bytes = seq<Byte>

  function Pow256(length: nat): nat {
    if length == 0 then 1 else 256 * Pow256(length - 1)
  }

  function Digits(n: nat, length: nat): (r: Bytes)
    ensures |r| == length
  {
    if length == 0 then [] else Digits(n / 256, length - 1) + [n % 256]
  }

  function ToBytes(n: nat, length: nat): Option<Bytes> {
    if n < Pow256(length) then Some(Digits(n, length)) else None
  }

  function FromBytes(bytes: Bytes): nat {
    if bytes == [] then 0 else 256 * FromBytes(bytes[..|bytes| - 1]) + bytes[|bytes| - 1]
  }

  /** A number that fits reads back. */
  lemma {:induction false} FromDigits(n: nat, length: nat)
    requires n < Pow256(length)
    ensures FromBytes(Digits(n, length)) == n
    decreases length
  {
    if length > 0 {
      var bytes := Digits(n, length);
      assert bytes[..|bytes| - 1] == Digits(n / 256, length - 1);
      FromDigits(n / 256, length - 1);
    }
  }

  /** Every byte string of the length is the encoding of some number that fits. */
  lemma {:induction false} DigitsOfValue(bytes: Bytes)
    ensures FromBytes(bytes) < Pow256(|bytes|)
    ensures Digits(FromBytes(bytes), |bytes|) == bytes
    decreases |bytes|
  {
    if bytes != [] {
      var front, last := bytes[..|bytes| - 1], bytes[|bytes| - 1];
      DigitsOfValue(front);
      var n := FromBytes(bytes);
      assert n / 256 == FromBytes(front) && n % 256 == last;
      assert bytes == front + [last];
    }
  }

  /** Several numbers, one after the other. */
  function AllDigits(numbers: seq<nat>, length: nat): (r: Bytes)
    ensures |r| == |numbers| * length
  {
    if numbers == [] then [] else Digits(numbers[0], length) + AllDigits(numbers[1..], length)
  }

  function AllToBytes(numbers: seq<nat>, length: nat): Option<Bytes> {
    if forall i :: 0 <= i < |numbers| ==> numbers[i] < Pow256(length) then Some(AllDigits(numbers, length)) else None
  }

  /** Reads `count` numbers of `length` bytes each. */
  function ReadAll(bytes: Bytes, count: nat, length: nat): seq<nat>
    requires |bytes| == count * length
    decreases count
  {
    if count == 0 then []
    else
      assert count * length == (count - 1) * length + length;
      [FromBytes(bytes[..length])] + ReadAll(bytes[length..], count - 1, length)
  }

  lemma {:induction false} ReadAllDigits(numbers: seq<nat>, length: nat)
    requires forall i :: 0 <= i < |numbers| ==> numbers[i] < Pow256(length)
    ensures ReadAll(AllDigits(numbers, length), |numbers|, length) == numbers
    decreases |numbers|
  {
    if numbers != [] {
      var bytes := AllDigits(numbers, length);
      assert bytes[..length] == Digits(numbers[0], length);
      assert bytes[length..] == AllDigits(numbers[1..], length);
      FromDigits(numbers[0], length);
      ReadAllDigits(numbers[1..], length);
    }
  }

  /** What is read writes back the same bytes. */
  lemma {:induction false} AllDigitsOfRead(bytes: Bytes, count: nat, length: nat)
    requires |bytes| == count * length
    ensures |ReadAll(bytes, count, length)| == count
    ensures forall i :: 0 <= i < count ==> ReadAll(bytes, count, length)[i] < Pow256(length)
    ensures AllDigits(ReadAll(bytes, count, length), length) == bytes
    decreases count
  {
    if count > 0 {
      assert count * length == (count - 1) * length + length;
      DigitsOfValue(bytes[..length]);
      AllDigitsOfRead(bytes[length..], count - 1, length);
      assert bytes == bytes[..length] + bytes[length..];
    }
  }

  lemma {:induction false} QuotientOfQuotient(n: nat, p: nat)
    requires p > 0
    ensures n / 256 / p == n / (256 * p)
  {
    var q := n / (256 * p);
    Arithmetic.QuotientBounds(n, 256 * p);
    assert 256 * (p * q) <= n < 256 * (p * q + p);
    Arithmetic.QuotientIs(n / 256, p, q);
  }

  /** Big-endian: the byte `i` places from the end is the digit of weight 256 to the power of `i`. */
  lemma {:induction false} DigitAt(n: nat, length: nat, i: nat)
    requires i < length
    ensures Pow256(i) > 0 && Digits(n, length)[length - 1 - i] == n / Pow256(i) % 256
  {
    if i > 0 {
      DigitAt(n / 256, length - 1, i - 1);
      QuotientOfQuotient(n, Pow256(i - 1));
    }
  }
}
