/**
 * What unpack reads from any bytes, letter by letter: which it accepts and as what value,
 * what it consumes when it refuses, and when it needs memory. What pack writes is in Codec.
 */
module WireFormat {
  import opened Octets
  import opened Bignum
  import opened Codec
  import opened Unpack

  // ---- What one letter accepts ----

  /** Reading a field and writing its number again gives the same bytes. */
  lemma {:induction false} FieldBack(b: seq<byte>)
    ensures ToBytes(FromBytes(b), |b|) == b
  {
    if b != [] {
      var front, last := b[..|b| - 1], b[|b| - 1];
      FieldBack(front);
      AppendDigit(FromBytes(front), last, |front|);
      assert b == front + [last];
    }
  }

  /** A number needs its width of bytes; it is the one written as those, and the rest is left. */
  lemma NumbersExactly(c: char, slots: seq<Slot>, v: seq<byte>, maxLen: nat)
    requires |slots| == 1 && maxLen < TWO_32 && c in "bwdq"
    ensures
      var width := if c == 'b' then 1 else if c == 'w' then 2 else if c == 'd' then 4 else 8;
      var d := Decode(c, slots, v, maxLen);
      if |v| < width then d == Decoded(None, v)
      else d.rest == v[width..] && exists n :: d.values == Some([Num(n)]) && ToBytes(n, width) == v[..width]
  {
    assert c == 'b' || c == 'w' || c == 'd' || c == 'q';
    var width := if c == 'b' then 1 else if c == 'w' then 2 else if c == 'd' then 4 else 8;
    if |v| >= width {
      FieldBack(v[..width]);
      assert Decode(c, slots, v, maxLen).values == Some([Num(FromBytes(v[..width]))]);
    }
  }

  /** A string behind its length: with a length too long for what follows, the length alone is consumed. */
  lemma StringsExactly(slots: seq<Slot>, s: seq<byte>, n: nat, more: seq<byte>, maxLen: nat)
    requires |slots| == 1 && n < TWO_32 && maxLen < TWO_32
    ensures
      var str := Decode('S', slots, ToBytes(n, 4) + more, maxLen);
      var big := Decode('B', slots, ToBytes(n, 4) + more, maxLen);
      var text := Decode('s', slots, ToBytes(n, 4) + more, maxLen);
      && (n > |more| ==> str == big == text == Decoded(None, more))
      && (n <= |more| ==>
            && str == Decoded(Some([Str(more[..n])]), more[n..])
            && big == Decoded(Some([Big(FromBytes(more[..n]))]), more[n..])
            && text == if maxLen > 0 && n >= maxLen then Decoded(None, more)
                       else Decoded(Some([Text(CString(more[..n]))]), more[n..]))
    ensures |s| < 4 ==> Decode('S', slots, s, maxLen) == Decode('B', slots, s, maxLen)
                        == Decode('s', slots, s, maxLen) == Decoded(None, s)
  {
    var v := ToBytes(n, 4) + more;
    assert v[..4] == ToBytes(n, 4) && v[4..] == more;
    LengthField(v[..4]);
    FixedWidth(n);
  }

  /** An area is the next bytes, if they are there and fewer than the whole buffer; else nothing is consumed. */
  lemma AreasExactly(slots: seq<Slot>, v: seq<byte>, maxLen: nat)
    requires |slots| == 2 && slots[0].Length? && maxLen < TWO_32
    ensures
      var k, d := slots[0].n, Decode('P', slots, v, maxLen);
      if k > |v| || k > UINT32_MAX || (maxLen > 0 && k >= maxLen) then d == Decoded(None, v)
      else d == Decoded(Some([Size(k), Mem(v[..k])]), v[k..])
  {
  }

  /** A letter that is no format reads nothing, and 't' and 'F' only write. */
  lemma NothingElseReads(c: char, slots: seq<Slot>, v: seq<byte>, maxLen: nat)
    requires |slots| == Arity(c) && maxLen < TWO_32 && c !in "bwdqBSsP"
    ensures Decode(c, slots, v, maxLen) == Decoded(None, v)
  {
    assert c !in ['b', 'w', 'd', 'q', 'B', 'S', 's', 'P'];
  }

  /** Numbers need no memory; without it a string consumes its length, an area nothing, a bignum at most its string. */
  lemma {:induction false} MemoryExactly(slots: seq<Slot>, n: nat, more: seq<byte>, maxLen: nat, m: Memory)
    requires |slots| == 1 && n <= |more| && n < TWO_32 && maxLen < TWO_32 && (maxLen > 0 ==> n < maxLen)
    ensures
      var v := ToBytes(n, 4) + more;
      && (forall c :: c in "bwdq" ==> DecodeIn(c, slots, v, maxLen, m) == Decode(c, slots, v, maxLen))
      && DecodeIn('S', slots, v, maxLen, m) == (if m.first then Decode('S', slots, v, maxLen) else Decoded(None, more))
      && DecodeIn('s', slots, v, maxLen, m) == (if m.first then Decode('s', slots, v, maxLen) else Decoded(None, more))
      && DecodeIn('B', slots, v, maxLen, m)
         == if !m.first then Decoded(None, more)
            else if !m.second then Decoded(None, more[n..])
            else Decode('B', slots, v, maxLen)
    ensures
      DecodeIn('P', [Length(n), Pointer], more, maxLen, m)
      == if m.first then Decode('P', [Length(n), Pointer], more, maxLen) else Decoded(None, more)
  {
    var v := ToBytes(n, 4) + more;
    assert v[4..] == more;
    StringsExactly(slots, [], n, more, maxLen);
    forall c | c in "bwdq" ensures DecodeIn(c, slots, v, maxLen, m) == Decode(c, slots, v, maxLen) {
      assert c == 'b' || c == 'w' || c == 'd' || c == 'q';
    }
  }

  /** A call that returns values was given exactly the arguments its format takes. */
  lemma {:induction false} UnpacksAll(fmt: string, slots: seq<Slot>, v: seq<byte>, maxLen: nat)
    requires maxLen < TWO_32 && Unpacked(fmt, slots, v, maxLen).values.Some?
    ensures |slots| == Arguments(fmt)
    decreases |fmt|
  {
    if fmt != [] {
      var k := Arity(fmt[0]);
      UnpacksAll(fmt[1..], slots[k..], Decode(fmt[0], slots[..k], v, maxLen).rest, maxLen);
    }
  }
}
