/**
 * Base64 (base64.c; section 5.2 of RFC 1521). Text is a sequence of octets, a C
 * string an array that ends with its only 0.
 */
module Base64 {
  import opened Octets
  import opened SshBuffers

  const MAX_INPUT: nat := 0x1000_0000
  const PAD: byte := 61  // '='

  // ---- The alphabet ----

  /** The character of a 6-bit value. */
  function Digit(v: nat): byte
    requires v < 64
  {
    if v < 26 then 65 + v
    else if v < 52 then 97 + v - 26
    else if v < 62 then 48 + v - 52
    else if v == 62 then 43
    else 47
  }

  /** Where a character stands in the alphabet, if it does. */
  function Value(c: byte): (v: Option<nat>)
    ensures v.Some? ==> v.value < 64
  {
    if 65 <= c <= 90 then Some(c - 65)
    else if 97 <= c <= 122 then Some(c - 97 + 26)
    else if 48 <= c <= 57 then Some(c - 48 + 52)
    else if c == 43 then Some(62)
    else if c == 47 then Some(63)
    else None
  }

  // The alphabet as the source spells it, in three pieces.
  const UPPER: string := "ABCDEFGHIJKLMNOPQRSTUVWXYZ"
  const LOWER: string := "abcdefghijklmnopqrstuvwxyz"
  const OTHER: string := "0123456789+/"

  lemma DigitTable(v: nat)
    requires v < 64
    ensures |UPPER| == |LOWER| == 26 && |OTHER| == 12
    ensures Digit(v) as char == if v < 26 then UPPER[v] else if v < 52 then LOWER[v - 26] else OTHER[v - 52]
  {
    LetterTable(if v < 26 then v else if v < 52 then v - 26 else 0);
    OtherTable(if v < 52 then 0 else v - 52);
  }

  lemma LetterTable(v: nat)
    requires v < 26
    ensures UPPER[v] as int == 65 + v && LOWER[v] as int == 97 + v
  {
    if v < 13 {
      assert v == 0 || v == 1 || v == 2 || v == 3 || v == 4 || v == 5 || v == 6
             || v == 7 || v == 8 || v == 9 || v == 10 || v == 11 || v == 12;
    } else {
      assert v == 13 || v == 14 || v == 15 || v == 16 || v == 17 || v == 18 || v == 19
             || v == 20 || v == 21 || v == 22 || v == 23 || v == 24 || v == 25;
    }
  }

  lemma OtherTable(v: nat)
    requires v < 12
    ensures OTHER[v] as int == if v < 10 then 48 + v else if v == 10 then 43 else 47
  {
    assert v == 0 || v == 1 || v == 2 || v == 3 || v == 4 || v == 5
           || v == 6 || v == 7 || v == 8 || v == 9 || v == 10 || v == 11;
  }

  lemma DigitValue(c: byte, v: nat)
    requires v < 64
    ensures Value(c) == Some(v) <==> c == Digit(v)
    ensures Digit(v) != PAD && Digit(v) != 0
  {
  }

  predicate InAlphabet(t: seq<byte>) {
    forall i :: 0 <= i < |t| ==> Value(t[i]).Some?
  }

  // ---- Encoding ----

  /** Octet `k` of a quantum, 0 when it has fewer. */
  function OctetAt(b: seq<byte>, k: nat): byte {
    if k < |b| then b[k] else 0
  }

  /** The k-th six bits of a quantum. */
  function Sextet(b: seq<byte>, k: nat): (v: nat)
    requires k <= 3
    ensures v < 64
  {
    if k == 0 then OctetAt(b, 0) / 4
    else if k == 1 then OctetAt(b, 1) / 16 + OctetAt(b, 0) % 4 * 16
    else if k == 2 then OctetAt(b, 2) / 64 + OctetAt(b, 1) % 16 * 4
    else OctetAt(b, 2) % 64
  }

  /** The 8, 16 or 24 bits of `b` as two, three or four characters and the padding. */
  function Quantum(b: seq<byte>): (t: seq<byte>)
    requires 1 <= |b| <= 3
    ensures |t| == 4
  {
    seq(4, k requires 0 <= k < 4 => if k <= |b| then Digit(Sextet(b, k)) else PAD)
  }

  function Encode(b: seq<byte>): seq<byte> {
    if b == [] then []
    else if |b| <= 3 then Quantum(b)
    else Quantum(b[..3]) + Encode(b[3..])
  }

  function EncodedLength(n: nat): nat {
    4 * ((n + 2) / 3)
  }

  lemma {:induction false} EncodeLength(b: seq<byte>)
    ensures |Encode(b)| == EncodedLength(|b|)
  {
    if |b| > 3 {
      EncodeLength(b[3..]);
    }
  }

  // ---- Decoding ----

  /** The number of '=' signs. */
  function Equals(t: seq<byte>): nat {
    if t == [] then 0 else Equals(t[..|t| - 1]) + if t[|t| - 1] == PAD then 1 else 0
  }

  /** The text before the first '='. */
  function Body(t: seq<byte>): (body: seq<byte>)
    ensures |body| <= |t| && body == t[..|body|]
    ensures PAD !in body
    ensures |body| < |t| ==> t[|body|] == PAD
  {
    if t == [] || t[0] == PAD then [] else [t[0]] + Body(t[1..])
  }

  /** The value of character `k`, 0 when it is missing. */
  function ValueAt(t: seq<byte>, k: nat): (v: nat)
    ensures v < 64
  {
    if k < |t| && Value(t[k]).Some? then Value(t[k]).value else 0
  }

  /** Four times six bits as one number. */
  function Join(t: seq<byte>): (n: nat)
    ensures n < 0x100_0000
  {
    0x4_0000 * ValueAt(t, 0) + 0x1000 * ValueAt(t, 1) + 0x40 * ValueAt(t, 2) + ValueAt(t, 3)
  }

  function OctetOf(block: nat, k: nat): byte {
    if k == 0 then block / 0x1_0000 % 0x100 else if k == 1 then block / 0x100 % 0x100 else block % 0x100
  }

  /** The first `num` octets that `num` + 1 characters stand for. */
  function Block(t: seq<byte>, num: nat): (b: Option<seq<byte>>)
    requires 1 <= num <= 3 && |t| == num + 1
    ensures b.Some? <==> InAlphabet(t)
    ensures b.Some? ==> |b.value| == num
  {
    if InAlphabet(t) then Some(seq(num, k requires 0 <= k < num => OctetOf(Join(t), k))) else None
  }

  function Append(front: Option<seq<byte>>, back: Option<seq<byte>>): Option<seq<byte>> {
    if front.Some? && back.Some? then Some(front.value + back.value) else None
  }

  function DecodeBody(body: seq<byte>, equals: nat): Option<seq<byte>> {
    if |body| > 4 then Append(Block(body[..4], 3), DecodeBody(body[4..], equals))
    else if |body| == 4 && equals == 0 then Block(body, 3)
    else if |body| == 2 && equals == 2 then Block(body, 1)
    else if |body| == 3 && equals == 1 then Block(body, 2)
    else None
  }

  function Decode(t: seq<byte>): Option<seq<byte>> {
    if Equals(t) > 2 then None else DecodeBody(Body(t), Equals(t))
  }

  // ---- Decoding undoes encoding ----

  lemma JoinSextets(b0: byte, b1: byte, b2: byte)
    ensures 0x4_0000 * (b0 / 4) + 0x1000 * (b1 / 16 + b0 % 4 * 16) + 0x40 * (b2 / 64 + b1 % 16 * 4) + b2 % 64
            == 0x1_0000 * b0 + 0x100 * b1 + b2
  {
  }

  /** A quantum is the number its octets spell, written in radix 64. */
  lemma {:induction false} QuantumIsRadix64(b: seq<byte>)
    requires 1 <= |b| <= 3
    ensures InAlphabet(Quantum(b)[..|b| + 1])
    ensures Join(Quantum(b)[..|b| + 1]) == 0x1_0000 * OctetAt(b, 0) + 0x100 * OctetAt(b, 1) + OctetAt(b, 2)
  {
    var t := Quantum(b)[..|b| + 1];
    forall k: nat | k <= 3 ensures ValueAt(t, k) == Sextet(b, k) && (k < |t| ==> Value(t[k]).Some?) {
      if k < |t| {
        DigitValue(t[k], Sextet(b, k));
      }
    }
    JoinSextets(OctetAt(b, 0), OctetAt(b, 1), OctetAt(b, 2));
  }

  lemma QuantumBack(b: seq<byte>)
    requires 1 <= |b| <= 3
    ensures Block(Quantum(b)[..|b| + 1], |b|) == Some(b)
  {
    QuantumIsRadix64(b);
    var block := Join(Quantum(b)[..|b| + 1]);
    SplitNumber(OctetAt(b, 0), OctetAt(b, 1), OctetAt(b, 2));
    assert Block(Quantum(b)[..|b| + 1], |b|).value == b;
  }

  lemma SplitNumber(b0: byte, b1: byte, b2: byte)
    ensures
      var n := 0x1_0000 * b0 + 0x100 * b1 + b2;
      OctetOf(n, 0) == b0 && OctetOf(n, 1) == b1 && OctetOf(n, 2) == b2
  {
  }

  /** The padding an input of `n` octets is encoded with. */
  function Padding(n: nat): nat {
    if n % 3 == 0 then 0 else 3 - n % 3
  }

  function Pads(n: nat): seq<byte> {
    seq(n, i => PAD)
  }

  /** The characters of the encoding that are not padding. */
  function Characters(b: seq<byte>): (c: seq<byte>)
    ensures PAD !in c
  {
    if b == [] then []
    else if |b| <= 3 then
      DigitsOnly(b);
      Quantum(b)[..|b| + 1]
    else
      DigitsOnly(b[..3]);
      Quantum(b[..3]) + Characters(b[3..])
  }

  lemma DigitsOnly(b: seq<byte>)
    requires 1 <= |b| <= 3
    ensures PAD !in Quantum(b)[..|b| + 1]
    ensures Quantum(b) == Quantum(b)[..|b| + 1] + Pads(Padding(|b|))
  {
  }

  lemma {:induction false} EncodeSplits(b: seq<byte>)
    ensures Encode(b) == Characters(b) + Pads(Padding(|b|))
  {
    if b == [] {
    } else if |b| <= 3 {
      DigitsOnly(b);
    } else {
      EncodeSplits(b[3..]);
      assert Encode(b) == Quantum(b[..3]) + (Characters(b[3..]) + Pads(Padding(|b|)));
    }
  }

  lemma {:induction false} NoEquals(c: seq<byte>)
    requires PAD !in c
    ensures Equals(c) == 0
  {
    if c != [] {
      NoEquals(c[..|c| - 1]);
    }
  }

  lemma {:induction false} EqualsAppend(c: seq<byte>, n: nat)
    requires PAD !in c
    ensures Equals(c + Pads(n)) == n
  {
    if n == 0 {
      assert c + Pads(0) == c;
      NoEquals(c);
    } else {
      EqualsAppend(c, n - 1);
      assert (c + Pads(n))[..|c| + n - 1] == c + Pads(n - 1);
    }
  }

  lemma {:induction false} BodyAppend(c: seq<byte>, n: nat)
    requires PAD !in c
    ensures Body(c + Pads(n)) == c
  {
    if c != [] {
      BodyAppend(c[1..], n);
      assert (c + Pads(n))[1..] == c[1..] + Pads(n);
    }
  }

  lemma {:induction false} CharactersBack(b: seq<byte>)
    requires b != []
    ensures DecodeBody(Characters(b), Padding(|b|)) == Some(b)
  {
    if |b| <= 3 {
      QuantumBack(b);
    } else {
      QuantumBack(b[..3]);
      CharactersBack(b[3..]);
      NextQuantum(b);
      assert Quantum(b[..3])[..4] == Quantum(b[..3]) && b[..3] + b[3..] == b;
    }
  }

  lemma NextQuantum(b: seq<byte>)
    requires |b| > 3
    ensures |Characters(b)| > 4
    ensures Characters(b)[..4] == Quantum(b[..3]) && Characters(b)[4..] == Characters(b[3..])
  {
    assert |Characters(b[3..])| > 0;
  }

  /** Decoding undoes encoding for every input except the empty one, whose encoding is refused. */
  lemma RoundTrip(b: seq<byte>)
    ensures Decode(Encode(b)) == (if b == [] then None else Some(b))
    ensures Decode(Encode(b)) == Some(b) <==> b != []
  {
    EncodeSplits(b);
    EqualsAppend(Characters(b), Padding(|b|));
    BodyAppend(Characters(b), Padding(|b|));
    if b != [] {
      CharactersBack(b);
    }
  }

  // ---- Which texts decode, and to what ----

  /** A text decodes exactly when the characters before its first '=' are in the alphabet and fit the number of '='. */
  lemma Accepts(t: seq<byte>)
    ensures
      var body := Body(t);
      Decode(t).Some? <==>
        Equals(t) <= 2 && body != [] && InAlphabet(body) && |body| % 4 == (if Equals(t) == 0 then 0 else 4 - Equals(t))
  {
    if Equals(t) <= 2 {
      AcceptsBody(Body(t), Equals(t));
    }
  }

  lemma {:induction false} AcceptsBody(body: seq<byte>, equals: nat)
    requires equals <= 2
    ensures DecodeBody(body, equals).Some? <==>
              body != [] && InAlphabet(body) && |body| % 4 == (if equals == 0 then 0 else 4 - equals)
  {
    if |body| > 4 {
      AcceptsBody(body[4..], equals);
      assert body == body[..4] + body[4..];
    }
  }

  /** The bits of the last character that stand for nothing are 0. */
  predicate SpareBitsZero(body: seq<byte>, equals: nat)
    requires body != []
  {
    var last := Value(body[|body| - 1]);
    last.Some? ==> last.value % (if equals == 2 then 16 else if equals == 1 then 4 else 1) == 0
  }

  /** The sextets of the octets decoded from values v0..v3 (the missing ones 0). */
  lemma SextetsOf(v0: nat, v1: nat, v2: nat, v3: nat)
    requires v0 < 64 && v1 < 64 && v2 < 64 && v3 < 64
    ensures
      var n := 0x4_0000 * v0 + 0x1000 * v1 + 0x40 * v2 + v3;
      && OctetOf(n, 0) == 4 * v0 + v1 / 16
      && OctetOf(n, 1) == 16 * (v1 % 16) + v2 / 4
      && OctetOf(n, 2) == 64 * (v2 % 4) + v3
  {
    SplitNumber(4 * v0 + v1 / 16, 16 * (v1 % 16) + v2 / 4, 64 * (v2 % 4) + v3);
  }

  /** Value `v` without the bits that stand for nothing when `num` octets were decoded. */
  function Kept(v: nat, num: nat): nat {
    if num == 1 then v / 16 * 16 else if num == 2 then v / 4 * 4 else v
  }

  lemma HalvesOf(v0: nat, v1: nat, v2: nat, v3: nat)
    requires v0 < 64 && v1 < 64 && v2 < 64 && v3 < 64
    ensures (4 * v0 + v1 / 16) / 4 == v0 && (4 * v0 + v1 / 16) % 4 == v1 / 16
    ensures (16 * (v1 % 16) + v2 / 4) / 16 == v1 % 16 && (16 * (v1 % 16) + v2 / 4) % 16 == v2 / 4
    ensures (64 * (v2 % 4) + v3) / 64 == v2 % 4 && (64 * (v2 % 4) + v3) % 64 == v3
  {
  }

  /** The octets decoded from a block, in terms of its values. */
  lemma {:induction false} OctetsOfBlock(t: seq<byte>, num: nat)
    requires 1 <= num <= 3 && |t| == num + 1 && InAlphabet(t)
    ensures
      var b := Block(t, num).value;
      && OctetAt(b, 0) == 4 * ValueAt(t, 0) + ValueAt(t, 1) / 16
      && OctetAt(b, 1) == (if num > 1 then 16 * (ValueAt(t, 1) % 16) + ValueAt(t, 2) / 4 else 0)
      && OctetAt(b, 2) == (if num > 2 then 64 * (ValueAt(t, 2) % 4) + ValueAt(t, 3) else 0)
  {
    SextetsOf(ValueAt(t, 0), ValueAt(t, 1), ValueAt(t, 2), ValueAt(t, 3));
  }

  lemma {:induction false} SextetsBack(t: seq<byte>, num: nat, k: nat)
    requires 1 <= num <= 3 && |t| == num + 1 && InAlphabet(t) && k <= num
    ensures Sextet(Block(t, num).value, k) == if k < num then ValueAt(t, k) else Kept(ValueAt(t, k), num)
  {
    OctetsOfBlock(t, num);
    HalvesOf(ValueAt(t, 0), ValueAt(t, 1), ValueAt(t, 2), ValueAt(t, 3));
  }

  /** The text without the bits that stand for nothing. */
  function Cleaned(body: seq<byte>, equals: nat): seq<byte>
    requires body != [] && equals <= 2
  {
    var k := |body| - 1;
    body[..k] + [Digit(Kept(ValueAt(body, k), 3 - equals))]
  }

  lemma CleanedIsSame(body: seq<byte>, equals: nat)
    requires body != [] && equals <= 2 && InAlphabet(body)
    ensures Cleaned(body, equals) == body <==> SpareBitsZero(body, equals)
    ensures equals == 0 ==> Cleaned(body, equals) == body
  {
    var k := |body| - 1;
    DigitValue(body[k], Kept(ValueAt(body, k), 3 - equals));
    assert body == body[..k] + [body[k]];
    assert Cleaned(body, equals)[k] == Digit(Kept(ValueAt(body, k), 3 - equals));
  }

  lemma {:induction false} BlockBack(t: seq<byte>, num: nat)
    requires 1 <= num <= 3 && |t| == num + 1 && InAlphabet(t)
    ensures Quantum(Block(t, num).value)[..num + 1] == Cleaned(t, 3 - num)
  {
    var q := Quantum(Block(t, num).value);
    forall k: nat | k < num ensures q[k] == t[k] {
      SextetsBack(t, num, k);
      DigitValue(t[k], ValueAt(t, k));
    }
    SextetsBack(t, num, num);
    assert q[..num + 1] == t[..num] + [q[num]];
  }

  lemma PrependQuantum(front: seq<byte>, back: seq<byte>, rest: seq<byte>)
    requires |front| == 3 && back != []
    ensures Characters(front + back) == Quantum(front) + rest <==> Characters(back) == rest
    ensures Padding(|front + back|) == Padding(|back|)
  {
    var b := front + back;
    assert b[..3] == front && b[3..] == back;
    assert Characters(b) == Quantum(front) + Characters(back);
    assert Characters(b) == Quantum(front) + rest ==>
             Characters(back) == Characters(b)[4..] == (Quantum(front) + rest)[4..] == rest;
  }

  lemma CleanedRest(body: seq<byte>, equals: nat)
    requires |body| > 4 && equals <= 2
    ensures Cleaned(body, equals) == body[..4] + Cleaned(body[4..], equals)
  {
    var k := |body| - 1;
    assert body[..k] == body[..4] + body[4..][..k - 4];
    assert ValueAt(body, k) == ValueAt(body[4..], k - 4);
  }

  lemma {:induction false} BodyBack(body: seq<byte>, equals: nat)
    requires DecodeBody(body, equals).Some? && body != [] && equals <= 2
    ensures
      var b := DecodeBody(body, equals).value;
      Padding(|b|) == equals && b != [] && Characters(b) == Cleaned(body, equals)
  {
    if |body| > 4 {
      var t, rest := body[..4], body[4..];
      var front, back := Block(t, 3).value, DecodeBody(rest, equals).value;
      BodyBack(rest, equals);
      BlockBack(t, 3);
      CleanedIsSame(t, 0);
      CleanedRest(body, equals);
      assert Quantum(front)[..4] == Quantum(front);
      PrependQuantum(front, back, Cleaned(rest, equals));
      assert DecodeBody(body, equals).value == front + back;
    } else {
      BlockBack(body, 3 - equals);
    }
  }

  /**
   * What an accepted text decodes to is what its cleaned form encodes: the bits that stand
   * for nothing are dropped, and so is everything but padding from the first '=' on. So
   * encoding undoes decoding exactly for the texts that have neither.
   */
  lemma CanonicalBack(t: seq<byte>)
    requires Decode(t).Some?
    ensures Body(t) != [] && Equals(t) <= 2
    ensures Encode(Decode(t).value) == Cleaned(Body(t), Equals(t)) + Pads(Equals(t))
    ensures Encode(Decode(t).value) == t <==> t == Body(t) + Pads(Equals(t)) && SpareBitsZero(Body(t), Equals(t))
  {
    var b := Decode(t).value;
    Accepts(t);
    BodyBack(Body(t), Equals(t));
    EncodeSplits(b);
    CleanedIsSame(Body(t), Equals(t));
    SameFront(Cleaned(Body(t), Equals(t)), Body(t), Pads(Equals(t)), t);
  }

  lemma SameFront(clean: seq<byte>, body: seq<byte>, pads: seq<byte>, t: seq<byte>)
    requires |clean| == |body| && body <= t
    ensures clean + pads == t <==> t == body + pads && clean == body
  {
    if clean + pads == t {
      assert clean == t[..|body|] == body;
    }
  }

  // ---- The encoder ----

  /** _bin_to_base64 */
  method EncodeBlock(dest: array<byte>, at: nat, source: seq<byte>)
    requires 1 <= |source| <= 3 && at + 4 <= dest.Length
    modifies dest
    ensures dest[..at + 4] == old(dest[..at]) + Quantum(source)
  {
    dest[at] := Digit(source[0] / 4);
    if |source| == 1 {
      dest[at + 1] := Digit(source[0] % 4 * 16);
      dest[at + 2] := PAD;
      dest[at + 3] := PAD;
    } else {
      dest[at + 1] := Digit(source[1] / 16 + source[0] % 4 * 16);
      if |source| == 2 {
        dest[at + 2] := Digit(source[1] % 16 * 4);
        dest[at + 3] := PAD;
      } else {
        dest[at + 2] := Digit(source[2] / 64 + source[1] % 16 * 4);
        dest[at + 3] := Digit(source[2] % 64);
      }
    }
  }

  lemma {:induction false} EncodeStep(b: seq<byte>)
    requires b != []
    ensures Encode(b) == Quantum(b[..Min(|b|, 3)]) + Encode(b[Min(|b|, 3)..])
  {
    assert |b| <= 3 ==> b[..|b|] == b;
  }

  lemma SplitAt(whole: seq<byte>, at: nat, front: seq<byte>, back: seq<byte>)
    requires at <= |whole| && whole[at..] == front + back
    ensures at + |front| <= |whole|
    ensures whole[..at + |front|] == whole[..at] + front && whole[at + |front|..] == back
  {
    assert whole == whole[..at] + front + back;
  }

  /** The next quantum of an encoding of which `at` characters are written. */
  lemma NextBlock(whole: seq<byte>, at: nat, source: seq<byte>, from: nat)
    requires at <= |whole| && from < |source| && Encode(source[from..]) == whole[at..]
    ensures
      var n := Min(|source| - from, 3);
      && at + 4 <= |whole|
      && whole[..at + 4] == whole[..at] + Quantum(source[from..from + n])
      && Encode(source[from + n..]) == whole[at + 4..]
      && (from + n == |source| ==> at + 4 == |whole|)
  {
    var n, rest := Min(|source| - from, 3), source[from..];
    assert rest[..n] == source[from..from + n] && rest[n..] == source[from + n..];
    EncodeStep(rest);
    SplitAt(whole, at, Quantum(rest[..n]), Encode(rest[n..]));
  }

  /** The loop of bin_to_base64 and the terminator it writes. */
  method EncodeText(text: array<byte>, source: seq<byte>)
    requires |Encode(source)| < text.Length
    modifies text
    ensures text[..|Encode(source)|] == Encode(source) && text[|Encode(source)|] == 0
  {
    ghost var whole := Encode(source);
    assert source[0..] == source;
    var ptr: nat, from: nat, len: nat := 0, 0, |source|;
    while len > 0
      invariant ptr <= |whole| && text[..ptr] == whole[..ptr]
      invariant from + len == |source| && Encode(source[from..]) == whole[ptr..]
      invariant len == 0 ==> ptr == |whole|
    {
      NextBlock(whole, ptr, source, from);
      EncodeBlock(text, ptr, source[from..from + Min(len, 3)]);
      ptr := ptr + 4;
      if len < 3 {
        break;
      }
      from := from + 3;
      len := len - 3;
    }
    text[ptr] := 0;
  }

  lemma TextFits(n: nat)
    ensures EncodedLength(n) <= 4 * (n + (3 - n % 3)) / 3
  {
    var q := n / 3;
    assert n + (3 - n % 3) == 3 * (q + 1);
    assert 4 * (3 * (q + 1)) / 3 == 4 * (q + 1);
  }

  /** bin_to_base64: the text and its terminator fit the allocation. */
  method BinToBase64(source: seq<byte>, allocOk: bool) returns (base64: Option<array<byte>>)
    ensures base64.Some? <==> |source| <= MAX_INPUT && allocOk
    ensures base64.Some? ==>
              var text := base64.value;
              && fresh(text) && EncodedLength(|source|) < text.Length
              && text[..EncodedLength(|source|)] == Encode(source) && text[EncodedLength(|source|)] == 0
  {
    if |source| > MAX_INPUT || !allocOk {
      return None;
    }
    TextFits(|source|);
    var flen := |source| + (3 - |source| % 3);
    flen := 4 * flen / 3 + 1;
    var text := new byte[flen];
    EncodeLength(source);
    EncodeText(text, source);
    return Some(text);
  }

  // ---- The decoder ----

  /** Scan for a character or the terminator, from `from` on. */
  method Scan(text: array<byte>, from: nat, c: byte) returns (at: nat)
    requires from < text.Length && text[text.Length - 1] == 0
    ensures from <= at < text.Length && (text[at] == c || text[at] == 0)
    ensures forall i :: from <= i < at ==> text[i] != c && text[i] != 0
  {
    at := from;
    while text[at] != c && text[at] != 0
      invariant from <= at < text.Length
      invariant forall i :: from <= i < at ==> text[i] != c && text[i] != 0
      decreases text.Length - at
    {
      at := at + 1;
    }
  }

  ghost predicate CString(text: array<byte>)
    reads text
  {
    text.Length > 0 && text[text.Length - 1] == 0 && forall i :: 0 <= i < text.Length - 1 ==> text[i] != 0
  }

  lemma {:induction false} EqualsBetween(t: seq<byte>, lo: nat, hi: nat)
    requires lo <= hi <= |t|
    requires forall i :: lo <= i < hi ==> t[i] != PAD
    ensures Equals(t[..hi]) == Equals(t[..lo])
  {
    if lo < hi {
      EqualsBetween(t, lo, hi - 1);
      assert t[..hi][..hi - 1] == t[..hi - 1];
    }
  }

  /** get_equals: count the '=' signs and overwrite each with a terminator. */
  method GetEquals(text: array<byte>) returns (num: nat)
    requires CString(text)
    modifies text
    ensures num == Equals(old(text[..text.Length - 1]))
    ensures forall i :: 0 <= i < text.Length ==> text[i] == if old(text[i]) == PAD then 0 else old(text[i])
  {
    ghost var t := text[..text.Length - 1];
    var ptr := 0;
    num := 0;
    var at := Scan(text, ptr, PAD);
    while text[at] == PAD
      invariant ptr <= at < text.Length && (text[at] == PAD || text[at] == 0)
      invariant forall i :: ptr <= i < at ==> text[i] != PAD && text[i] != 0
      invariant forall i :: ptr <= i < text.Length ==> text[i] == old(text[i])
      invariant forall i :: 0 <= i < ptr ==> text[i] == if old(text[i]) == PAD then 0 else old(text[i])
      invariant ptr < text.Length && num == Equals(t[..ptr])
      decreases text.Length - ptr
    {
      EqualsBetween(t, ptr, at);
      assert t[..at + 1][..at] == t[..at];
      num := num + 1;
      text[at] := 0;
      ptr := at + 1;
      at := Scan(text, ptr, PAD);
    }
    EqualsBetween(t, ptr, |t|);
    assert t[..|t|] == t;
  }

  /** What strchr finds in the alphabet: for 0 its terminator at 64, of which a sextet keeps 0. */
  function Find(c: byte): (v: Option<nat>)
    ensures v == Value(if c == 0 then Digit(0) else c)
  {
    DigitValue(Digit(0), 0);
    if c == 0 then Some(64 % 64) else Value(c)
  }

  /** A block as the decoder takes it: a 0 stands for the digit of value 0. */
  function AsDigits(t: seq<byte>): (d: seq<byte>)
    ensures |d| == |t| && (0 !in t ==> d == t)
  {
    seq(|t|, i requires 0 <= i < |t| => if t[i] == 0 then Digit(0) else t[i])
  }

  /** to_block4 and _base64_to_bin */
  method DecodeBlock(text: array<byte>, at: nat, num: nat) returns (dest: Option<seq<byte>>)
    requires 1 <= num <= 3 && at + num < text.Length
    ensures dest == Block(AsDigits(text[at..at + num + 1]), num)
  {
    ghost var t := AsDigits(text[at..at + num + 1]);
    var block := 0;
    var a, b := Find(text[at]), Find(text[at + 1]);
    assert a == Value(t[0]) && b == Value(t[1]);
    if a.None? || b.None? {
      return None;
    }
    block := 0x4_0000 * a.value + 0x1000 * b.value;
    if num >= 2 {
      var c := Find(text[at + 2]);
      assert c == Value(t[2]);
      if c.None? {
        return None;
      }
      block := block + 0x40 * c.value;
    }
    if num >= 3 {
      var d := Find(text[at + 3]);
      assert d == Value(t[3]);
      if d.None? {
        return None;
      }
      block := block + d.value;
    }
    var bytes: seq<byte> := [OctetOf(block, 0), OctetOf(block, 1), OctetOf(block, 2)];
    assert block == Join(t) && InAlphabet(t);
    dest := Some(bytes[..num]);
    assert dest.value == Block(t, num).value;
  }

  /** An unshifted buffer takes `n` more octets, memory permitting, exactly when the total is at most its maximum. */
  lemma RoomFor(used: nat, capacity: nat, n: nat)
    requires used <= capacity <= BUFFER_SIZE_MAX && PowerOfTwo(capacity) && n < BUFFER_SIZE_MAX / 2
    ensures used + n <= capacity || used + n < BUFFER_SIZE_MAX <==> used + n <= BUFFER_SIZE_MAX
  {
    if used + n == BUFFER_SIZE_MAX {
      Powers();
      PowersApart(capacity, BUFFER_SIZE_MAX);
    }
  }

  lemma AppendFrom(front: seq<byte>, block: Option<seq<byte>>, back: Option<seq<byte>>)
    ensures Append(Some([]), back) == back
    ensures Append(Some(front), Append(block, back))
            == if block.None? then None else Append(Some(front + block.value), back)
  {
    if back.Some? {
      assert [] + back.value == back.value;
    }
    if block.Some? && back.Some? {
      assert front + (block.value + back.value) == (front + block.value) + back.value;
    }
  }

  /** One block decoded and appended; None stands for either failure. */
  method AddBlock(buffer: SshBuffer, base64: array<byte>, at: nat, num: nat, allocOk: bool) returns (ok: bool)
    requires 1 <= num <= 3 && at + num < base64.Length && 0 !in base64[at..at + num + 1]
    requires buffer.Valid() && buffer.pos == 0 && buffer.data != base64
    modifies buffer, buffer.data
    ensures buffer.Valid() && buffer.pos == 0 && (fresh(buffer.data) || buffer.data == old(buffer.data))
    ensures
      var b := Block(base64[at..at + num + 1], num);
      && (ok ==> b.Some? && |old(buffer.View())| + num <= BUFFER_SIZE_MAX)
      && (ok ==> buffer.View() == old(buffer.View()) + b.value)
      && (b.Some? && |old(buffer.View())| + num <= BUFFER_SIZE_MAX && allocOk ==> ok)
  {
    var block := DecodeBlock(base64, at, num);
    if block.None? {
      return false;
    }
    RoomFor(buffer.used, buffer.data.Length, num);
    ok := buffer.AddData(block.value, allocOk);
  }

  /** The loop and the switch of base64_to_bin on `length` characters; `roomOk` says which blocks find room. */
  method DecodeText(base64: array<byte>, length: nat, equals: nat, roomOk: nat -> bool)
    returns (decoded: Option<SshBuffer>)
    requires length < base64.Length && 0 !in base64[..length]
    ensures
      var d := DecodeBody(base64[..length], equals);
      && (decoded.Some? ==> d.Some? && |d.value| <= BUFFER_SIZE_MAX)
      && (d.Some? && |d.value| <= BUFFER_SIZE_MAX && (forall i: nat :: roomOk(i)) ==> decoded.Some?)
      && (decoded.Some? ==> fresh(decoded.value) && decoded.value.Valid() && decoded.value.View() == d.value)
  {
    ghost var body := base64[..length];
    var buffer := new SshBuffer();
    var ptr, len := 0, length;
    AppendFrom([], None, DecodeBody(body, equals));
    assert body[0..] == body;
    while len > 4
      invariant ptr + len == length
      invariant fresh(buffer) && fresh(buffer.data) && buffer.data != base64 && buffer.Valid() && buffer.pos == 0
      invariant DecodeBody(body, equals) == Append(Some(buffer.View()), DecodeBody(body[ptr..], equals))
    {
      assert base64[ptr..ptr + 4] == body[ptr..][..4] && body[ptr..][4..] == body[ptr + 4..];
      AppendFrom(buffer.View(), Block(body[ptr..][..4], 3), DecodeBody(body[ptr + 4..], equals));
      var ok := AddBlock(buffer, base64, ptr, 3, roomOk(ptr / 4));
      if !ok {
        return None;
      }
      len := len - 4;
      ptr := ptr + 4;
    }
    if (len == 4 && equals == 0) || (len == 2 && equals == 2) || (len == 3 && equals == 1) {
      assert base64[ptr..ptr + len] == body[ptr..];
      var ok := AddBlock(buffer, base64, ptr, len - 1, roomOk(ptr / 4));
      return if ok then Some(buffer) else None;
    }
    return None;
  }

  /**
   * base64_to_bin: what is accepted decodes to what is returned, and unless the copy of the
   * text, the buffer or room for a block cannot be allocated, exactly the texts that
   * decode to no more than a buffer can hold are accepted.
   */
  method Base64ToBin(source: array<byte>, copyOk: bool, bufferOk: bool, roomOk: nat -> bool)
    returns (decoded: Option<SshBuffer>)
    requires CString(source)
    ensures
      var d := Decode(source[..source.Length - 1]);
      && (decoded.Some? ==> d.Some? && |d.value| <= BUFFER_SIZE_MAX && copyOk && bufferOk)
      && (d.Some? && |d.value| <= BUFFER_SIZE_MAX && copyOk && bufferOk && (forall i: nat :: roomOk(i)) ==>
            decoded.Some?)
      && (decoded.Some? ==> fresh(decoded.value) && decoded.value.Valid() && decoded.value.View() == d.value)
  {
    if !copyOk || !bufferOk {
      return None;
    }
    ghost var t := source[..source.Length - 1];
    var base64 := new byte[source.Length];
    forall i | 0 <= i < source.Length {
      base64[i] := source[i];
    }
    assert base64[..base64.Length - 1] == t;
    var equals := GetEquals(base64);
    assert source[..source.Length - 1] == t;
    if equals > 2 {
      return None;
    }
    var len := Scan(base64, 0, PAD);
    BodyIs(t, base64[..len]);
    decoded := DecodeText(base64, len, equals, roomOk);
  }

  lemma {:induction false} BodyIs(t: seq<byte>, body: seq<byte>)
    requires body <= t && PAD !in body && (|body| < |t| ==> t[|body|] == PAD)
    ensures Body(t) == body
  {
    if body != [] {
      BodyIs(t[1..], body[1..]);
    }
  }
}
