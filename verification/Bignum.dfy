/**
 * The mpint codec of bignum.c (section 5 of RFC 4251). A bignum is a natural
 * number; the library calls it makes are the functions of the first section.
 */
module Bignum {
  import opened Octets
  import opened SshBuffers

  const STRING_SIZE_MAX: nat := 0x1000_0000

  // ---- The bignum library ----

  function NumBits(n: nat): nat {
    if n == 0 then 0 else 1 + NumBits(n / 2)
  }

  function NumBytes(n: nat): nat {
    (NumBits(n) + 7) / 8
  }

  predicate IsBitSet(n: nat, k: int)
    decreases k
  {
    k >= 0 && if k == 0 then n % 2 == 1 else IsBitSet(n / 2, k - 1)
  }

  /** The big-endian bytes of `n` in a field of `len` bytes. */
  function ToBytes(n: nat, len: nat): (b: seq<byte>)
    ensures |b| == len
  {
    if len == 0 then [] else ToBytes(n / 256, len - 1) + [n % 256]
  }

  function FromBytes(b: seq<byte>): nat {
    if b == [] then 0 else 256 * FromBytes(b[..|b| - 1]) + b[|b| - 1] as nat
  }

  // ---- bignum.c ----

  function Zeros(k: nat): seq<byte> {
    seq(k, i => 0)
  }

  function Padding(n: nat, padTo: nat): Option<nat> {
    if padTo == 0 then
      Some(if NumBits(n) % 8 == 0 && IsBitSet(n, NumBits(n) - 1) then 1 else 0)
    else if NumBytes(n) > padTo then
      None
    else
      Some(padTo - NumBytes(n))
  }

  /** The content of the SSH string for `n`: minimal when `padTo` is 0, else exactly `padTo` bytes. */
  function BignumString(n: nat, padTo: nat): Option<seq<byte>> {
    match Padding(n, padTo)
    case None => None
    case Some(pad) =>
      if NumBytes(n) + pad > STRING_SIZE_MAX then None
      else Some(Zeros(pad) + ToBytes(n, NumBytes(n)))
  }

  method MakeBignumString(n: nat, padTo: nat, allocOk: bool) returns (str: Option<seq<byte>>)
    ensures str == if allocOk then BignumString(n, padTo) else None
  {
    var pad := 0;
    var len := NumBytes(n);
    var bits := NumBits(n);
    if padTo == 0 {
      if bits % 8 == 0 && IsBitSet(n, bits as int - 1) {
        pad := pad + 1;
      }
    } else {
      if len > padTo {
        return None;
      }
      pad := padTo - len;
    }
    if len + pad > STRING_SIZE_MAX || !allocOk {
      return None;
    }
    var data := new byte[len + pad];
    forall i | 0 <= i < pad {
      data[i] := 0;
    }
    var bin := ToBytes(n, len);
    forall i | 0 <= i < len {
      data[pad + i] := bin[i];
    }
    assert data[..] == Zeros(pad) + bin;
    return Some(data[..]);
  }

  /** The minimal encoding, for numbers whose encoding fits a string. */
  function Mpint(n: nat): seq<byte> {
    Zeros(if NumBits(n) % 8 == 0 && IsBitSet(n, NumBits(n) - 1) then 1 else 0) + ToBytes(n, NumBytes(n))
  }

  // ---- What the encoding means ----

  lemma {:induction false} TopBitSet(n: nat)
    requires n > 0
    ensures IsBitSet(n, NumBits(n) - 1)
  {
    if n > 1 {
      TopBitSet(n / 2);
    }
  }

  /** Dropping the last byte of a number drops eight bits. */
  lemma BitsOfShift(n: nat)
    requires n >= 256
    ensures NumBits(n) == 8 + NumBits(n / 256)
    ensures NumBytes(n) == 1 + NumBytes(n / 256)
  {
    var n1 := n / 2;
    var n2 := n1 / 2;
    var n3 := n2 / 2;
    var n4 := n3 / 2;
    var n5 := n4 / 2;
    var n6 := n5 / 2;
    var n7 := n6 / 2;
    assert n7 / 2 == n / 256;
    assert NumBits(n) == 1 + NumBits(n1) && NumBits(n1) == 1 + NumBits(n2);
    assert NumBits(n2) == 1 + NumBits(n3) && NumBits(n3) == 1 + NumBits(n4);
    assert NumBits(n4) == 1 + NumBits(n5) && NumBits(n5) == 1 + NumBits(n6);
    assert NumBits(n6) == 1 + NumBits(n7) && NumBits(n7) == 1 + NumBits(n7 / 2);
  }

  lemma {:induction false} BitsBelow(n: nat, k: nat)
    ensures NumBits(n) <= k <==> n < Exp2(k)
  {
    if n > 0 && k > 0 {
      BitsBelow(n / 2, k - 1);
    }
  }

  lemma BitsOfByte(n: nat)
    requires n < 256
    ensures NumBytes(n) == if n == 0 then 0 else 1
    ensures NumBits(n) == 8 <==> n >= 128
    ensures NumBits(n) <= 8
  {
    assert Exp2(8) == 256 && Exp2(7) == 128;
    BitsBelow(n, 8);
    BitsBelow(n, 7);
  }

  lemma OneByte(n: nat)
    requires n < 256
    ensures ToBytes(n, 1) == [n]
    ensures FromBytes([n]) == n
  {
    assert ToBytes(n / 256, 0) == [] && n % 256 == n;
    assert [n][..0] == [];
  }

  lemma {:induction false} FromToBytes(n: nat)
    ensures FromBytes(ToBytes(n, NumBytes(n))) == n
  {
    if n < 256 {
      BitsOfByte(n);
      OneByte(n);
    } else {
      BitsOfShift(n);
      FromToBytes(n / 256);
    }
  }

  lemma SameFirstByte(n: nat, len: nat)
    requires len > 1
    ensures ToBytes(n, len)[0] == ToBytes(n / 256, len - 1)[0]
  {
    assert ToBytes(n, len) == ToBytes(n / 256, len - 1) + [n % 256];
  }

  lemma EightOrLess(bits: nat)
    requires 1 <= bits <= 8
    ensures bits % 8 == 0 <==> bits == 8
  {
  }

  lemma {:induction false} FirstByteSmall(n: nat)
    requires 0 < n < 256
    ensures NumBytes(n) == 1 && ToBytes(n, 1) == [n]
    ensures n >= 128 <==> NumBits(n) % 8 == 0
  {
    BitsOfByte(n);
    OneByte(n);
    EightOrLess(NumBits(n));
  }

  /** The first byte is never zero, and has its top bit set exactly when the bit count is a multiple of eight. */
  lemma {:induction false} FirstByte(n: nat)
    requires n > 0
    ensures NumBytes(n) > 0
    ensures ToBytes(n, NumBytes(n))[0] > 0
    ensures ToBytes(n, NumBytes(n))[0] >= 128 <==> NumBits(n) % 8 == 0
  {
    if n < 256 {
      FirstByteSmall(n);
    } else {
      BitsOfShift(n);
      FirstByte(n / 256);
      SameFirstByte(n, NumBytes(n));
    }
  }

  lemma {:induction false} LeadingZero(b: seq<byte>)
    ensures FromBytes([0] + b) == FromBytes(b)
  {
    if b != [] {
      assert ([0] + b)[..|b|] == [0] + b[..|b| - 1];
      LeadingZero(b[..|b| - 1]);
    }
  }

  /** A non-negative two's complement number without redundant leading bytes. */
  ghost predicate Canonical(b: seq<byte>) {
    && (b != [] ==> b[0] < 128)
    && (b != [] && b[0] == 0 ==> |b| > 1 && b[1] >= 128)
  }

  /** Encoding yields a canonical mpint that decodes to the number; zero is the empty string. */
  lemma MpintCorrect(n: nat)
    ensures FromBytes(Mpint(n)) == n
    ensures Canonical(Mpint(n))
    ensures Mpint(n) == [] <==> n == 0
  {
    FromToBytes(n);
    if n == 0 {
      assert Mpint(0) == [];
    } else {
      FirstByte(n);
      MpintShape(n);
      LeadingZero(ToBytes(n, NumBytes(n)));
      assert [] + ToBytes(n, NumBytes(n)) == ToBytes(n, NumBytes(n));
    }
  }

  lemma {:induction false} MpintShape(n: nat)
    requires n > 0
    ensures Mpint(n) == (if NumBits(n) % 8 == 0 then [0] else []) + ToBytes(n, NumBytes(n))
  {
    TopBitSet(n);
    assert Zeros(1) == [0] && Zeros(0) == [];
  }

  /** Bytes without a leading zero are the ones the library writes. */
  lemma {:induction false} ToFromBytes(b: seq<byte>)
    requires b != [] ==> b[0] > 0
    ensures ToBytes(FromBytes(b), NumBytes(FromBytes(b))) == b
    ensures b != [] ==> FromBytes(b) > 0
  {
    if |b| == 1 {
      assert b == [b[0]] && FromBytes(b[..0]) == 0;
      FirstByteSmall(FromBytes(b));
    } else if b != [] {
      var front := b[..|b| - 1];
      var n := FromBytes(b);
      ToFromBytes(front);
      LastDigit(FromBytes(front), b[|b| - 1]);
      BitsOfShift(n);
      AppendDigit(FromBytes(front), b[|b| - 1], NumBytes(FromBytes(front)));
      assert b == front + [b[|b| - 1]];
    }
  }

  lemma AppendDigit(m: nat, d: byte, len: nat)
    ensures ToBytes(256 * m + d, len + 1) == ToBytes(m, len) + [d]
  {
    LastDigit(m, d);
  }

  lemma LastDigit(m: nat, d: byte)
    ensures (256 * m + d) / 256 == m && (256 * m + d) % 256 == d
    ensures m > 0 ==> 256 * m + d >= 256
  {
  }

  /** The canonical encoding is unique: whatever canonical string decodes to `n` is the one written for `n`. */
  lemma MpintUnique(b: seq<byte>)
    requires Canonical(b)
    ensures Mpint(FromBytes(b)) == b
  {
    var n := FromBytes(b);
    if b == [] {
      assert Mpint(0) == [];
    } else if b[0] == 0 {
      assert b == [0] + b[1..];
      LeadingZero(b[1..]);
      ToFromBytes(b[1..]);
      MpintShape(n);
      FirstByte(n);
    } else {
      ToFromBytes(b);
      MpintShape(n);
      FirstByte(n);
    }
  }

  /** The padded form has exactly the requested length and the same value, and fails exactly when `n` is too long. */
  lemma PaddedCorrect(n: nat, padTo: nat)
    requires 0 < padTo <= STRING_SIZE_MAX
    ensures BignumString(n, padTo).Some? <==> NumBytes(n) <= padTo
    ensures BignumString(n, padTo).Some? ==>
              |BignumString(n, padTo).value| == padTo && FromBytes(BignumString(n, padTo).value) == n
  {
    if NumBytes(n) <= padTo {
      FromToBytes(n);
      LeadingZeros(padTo - NumBytes(n), ToBytes(n, NumBytes(n)));
    }
  }

  lemma {:induction false} LeadingZeros(k: nat, b: seq<byte>)
    ensures FromBytes(Zeros(k) + b) == FromBytes(b)
  {
    if k == 0 {
      assert Zeros(0) + b == b;
    } else {
      LeadingZeros(k - 1, b);
      assert Zeros(k) + b == [0] + (Zeros(k - 1) + b);
      LeadingZero(Zeros(k - 1) + b);
    }
  }
}
