/** ssh_buffer_unpack_va, and the round trip through ssh_buffer_pack_va. */
module Unpack {
  import opened Octets
  import opened SshBuffers
  import opened Bignum
  import opened Codec

  /** An argument of an unpack call: a pointer to fill, or the length that precedes a 'P' pointer. */
  datatype Slot = Pointer | Length(n: nat)

  /** `max_len - 1` in 32-bit arithmetic: the bound on the strings and areas of one call. */
  function MaxString(maxLen: nat): nat
    requires maxLen < TWO_32
  {
    if maxLen == 0 then UINT32_MAX else maxLen - 1
  }

  /** What one letter reads off the front of `v`: the values stored, if any, and what remains. */
  datatype Decoded = Decoded(values: Option<seq<Value>>, rest: seq<byte>)

  function TakeNumber(v: seq<byte>, width: nat): Decoded {
    if |v| < width then Decoded(None, v) else Decoded(Some([Num(FromBytes(v[..width]))]), v[width..])
  }

  function TakeText(v: seq<byte>, maxLen: nat): Decoded
    requires maxLen < TWO_32
  {
    if |v| < 4 then Decoded(None, v)
    else
      var n := BE32(v[..4]);
      var rest := v[4..];
      if n > MaxString(maxLen) || n > |rest| then Decoded(None, rest)
      else Decoded(Some([Text(CString(rest[..n]))]), rest[n..])
  }

  function TakeMemory(v: seq<byte>, n: nat, maxLen: nat): Decoded
    requires maxLen < TWO_32
  {
    if n > MaxString(maxLen) || n > |v| then Decoded(None, v)
    else Decoded(Some([Size(n), Mem(v[..n])]), v[n..])
  }

  function Decode(c: char, slots: seq<Slot>, v: seq<byte>, maxLen: nat): Decoded
    requires |slots| == Arity(c) && maxLen < TWO_32
  {
    match c
    case 'b' => TakeNumber(v, 1)
    case 'w' => TakeNumber(v, 2)
    case 'd' => TakeNumber(v, 4)
    case 'q' => TakeNumber(v, 8)
    case 'B' =>
      var (s, rest) := TakeString(v);
      Decoded(if s.Some? then Some([Big(FromBytes(s.value))]) else None, rest)
    case 'S' =>
      var (s, rest) := TakeString(v);
      Decoded(if s.Some? then Some([Str(s.value)]) else None, rest)
    case 's' => TakeText(v, maxLen)
    case 'P' => if slots[0].Length? then TakeMemory(v, slots[0].n, maxLen) else Decoded(None, v)
    case _ => Decoded(None, v)
  }

  function Joined(first: seq<Value>, rest: Decoded): Decoded {
    match rest.values
    case None => rest
    case Some(more) => Decoded(Some(first + more), rest.rest)
  }

  /** A whole call; a mismatch of arguments and format is noticed only once the format runs out of either. */
  function Unpacked(fmt: string, slots: seq<Slot>, v: seq<byte>, maxLen: nat): Decoded
    requires maxLen < TWO_32
  {
    if fmt == [] then
      Decoded(if slots == [] then Some([]) else None, v)
    else
      var k := Arity(fmt[0]);
      if |slots| < k then Decoded(None, v)
      else
        var d := Decode(fmt[0], slots[..k], v, maxLen);
        match d.values
        case None => d
        case Some(first) => Joined(first, Unpacked(fmt[1..], slots[k..], d.rest, maxLen))
  }

  // ---- When memory runs out ----

  /** A letter needs memory for a string or an area, and 'B' for the bignum read from the string as well. */
  predicate Lacks(c: char, m: Memory) {
    match c
    case 'B' => !m.first || !m.second
    case 'S' => !m.first
    case 's' => !m.first
    case 'P' => !m.first
    case _ => false
  }

  /** What a letter whose memory cannot be had leaves of `v`. */
  function RestWithout(c: char, d: Decoded, v: seq<byte>, m: Memory): seq<byte> {
    if c == 'P' || |v| < 4 then v else if c == 'B' && m.first then d.rest else v[4..]
  }

  /** Memory is asked for once the lengths are checked. */
  function DecodeIn(c: char, slots: seq<Slot>, v: seq<byte>, maxLen: nat, m: Memory): Decoded
    requires |slots| == Arity(c) && maxLen < TWO_32
  {
    var d := Decode(c, slots, v, maxLen);
    if d.values.Some? && Lacks(c, m) then Decoded(None, RestWithout(c, d, v, m)) else d
  }

  function UnpackedIn(fmt: string, slots: seq<Slot>, v: seq<byte>, maxLen: nat, allocs: seq<Memory>): Decoded
    requires maxLen < TWO_32 && |allocs| == |fmt|
  {
    if fmt == [] then
      Decoded(if slots == [] then Some([]) else None, v)
    else
      var k := Arity(fmt[0]);
      if |slots| < k then Decoded(None, v)
      else
        var d := DecodeIn(fmt[0], slots[..k], v, maxLen, allocs[0]);
        match d.values
        case None => d
        case Some(first) => Joined(first, UnpackedIn(fmt[1..], slots[k..], d.rest, maxLen, allocs[1..]))
  }

  ghost predicate AnyLacks(fmt: string, allocs: seq<Memory>)
    requires |allocs| == |fmt|
  {
    exists i :: 0 <= i < |fmt| && Lacks(fmt[i], allocs[i])
  }

  lemma LacksStep(fmt: string, allocs: seq<Memory>)
    requires |allocs| == |fmt| && fmt != []
    ensures AnyLacks(fmt, allocs) <==> Lacks(fmt[0], allocs[0]) || AnyLacks(fmt[1..], allocs[1..])
  {
    if AnyLacks(fmt[1..], allocs[1..]) {
      var i :| 0 <= i < |fmt[1..]| && Lacks(fmt[1..][i], allocs[1..][i]);
      assert Lacks(fmt[i + 1], allocs[i + 1]);
    }
    if AnyLacks(fmt, allocs) {
      var i :| 0 <= i < |fmt| && Lacks(fmt[i], allocs[i]);
      assert i > 0 ==> fmt[1..][i - 1] == fmt[i] && allocs[1..][i - 1] == allocs[i];
    }
  }

  /** A call without the memory one of its letters needs returns nothing; otherwise memory makes no difference. */
  lemma {:induction false} EnoughMemory(fmt: string, slots: seq<Slot>, v: seq<byte>, maxLen: nat, allocs: seq<Memory>)
    requires maxLen < TWO_32 && |allocs| == |fmt|
    ensures
      var d := UnpackedIn(fmt, slots, v, maxLen, allocs);
      if AnyLacks(fmt, allocs) then d.values == None else d == Unpacked(fmt, slots, v, maxLen)
    decreases |fmt|
  {
    if fmt != [] {
      LacksStep(fmt, allocs);
      var k := Arity(fmt[0]);
      if |slots| >= k {
        var d := DecodeIn(fmt[0], slots[..k], v, maxLen, allocs[0]);
        EnoughMemory(fmt[1..], slots[k..], d.rest, maxLen, allocs[1..]);
      }
    }
  }

  // ---- The method ----

  method UnpackOne(buffer: SshBuffer, c: char, slots: seq<Slot>, maxLen: nat, m: Memory)
    returns (values: Option<seq<Value>>)
    requires buffer.Valid() && |slots| == Arity(c) && maxLen < TWO_32
    requires forall s :: s in slots && s.Length? ==> s.n < TWO_64
    modifies buffer`pos
    ensures buffer.Valid()
    ensures Decoded(values, buffer.View()) == DecodeIn(c, slots, old(buffer.View()), maxLen, m)
  {
    values := None;
    match c
    case 'b' => values := UnpackNumber(buffer, 1);
    case 'w' => values := UnpackNumber(buffer, 2);
    case 'd' => values := UnpackNumber(buffer, 4);
    case 'q' => values := UnpackNumber(buffer, 8);
    case 'B' =>
      var s := buffer.GetSshString(m.first);
      if s.Some? && m.second {
        values := Some([Big(FromBytes(s.value))]);
      }
    case 'S' =>
      var s := buffer.GetSshString(m.first);
      if s.Some? {
        values := Some([Str(s.value)]);
      }
    case 's' => values := UnpackText(buffer, maxLen, m.first);
    case 'P' =>
      if slots[0].Length? && slots[0].n <= MaxString(maxLen) && slots[0].n <= buffer.used - buffer.pos && m.first {
        var bytes := buffer.GetData(slots[0].n);
        values := Some([Size(slots[0].n), Mem(bytes.value)]);
      }
    case _ =>
  }

  method UnpackText(buffer: SshBuffer, maxLen: nat, allocOk: bool) returns (values: Option<seq<Value>>)
    requires buffer.Valid() && maxLen < TWO_32
    modifies buffer`pos
    ensures buffer.Valid()
    ensures
      var v := old(buffer.View());
      var d := TakeText(v, maxLen);
      Decoded(values, buffer.View()) == if d.values.Some? && !allocOk then Decoded(None, v[4..]) else d
  {
    var length := buffer.GetData(4);
    if length.None? {
      return None;
    }
    var n := BE32(length.value);
    if n > MaxString(maxLen) || n > buffer.used - buffer.pos || !allocOk {
      return None;
    }
    var bytes := buffer.GetData(n);
    values := Some([Text(CString(bytes.value))]);
  }

  method UnpackNumber(buffer: SshBuffer, width: nat) returns (values: Option<seq<Value>>)
    requires buffer.Valid() && width <= 8
    modifies buffer`pos
    ensures buffer.Valid()
    ensures Decoded(values, buffer.View()) == TakeNumber(old(buffer.View()), width)
  {
    var bytes := buffer.GetData(width);
    values := if bytes.Some? then Some([Num(FromBytes(bytes.value))]) else None;
  }

  /** One turn of the loop; `total` is what the whole call reads, `got` what it has read so far. */
  method UnpackNext(buffer: SshBuffer, fmt: string, slots: seq<Slot>, allocs: seq<Memory>, p: nat, count: nat,
                    maxLen: nat, got: seq<Value>, ghost total: Decoded) returns (next: Option<seq<Value>>)
    requires buffer.Valid() && p < |fmt| == |allocs| && count + Arity(fmt[p]) <= |slots| && maxLen < TWO_32
    requires forall s :: s in slots && s.Length? ==> s.n < TWO_64
    requires total == Joined(got, UnpackedIn(fmt[p..], slots[count..], buffer.View(), maxLen, allocs[p..]))
    modifies buffer`pos
    ensures buffer.Valid()
    ensures next.None? ==> total == Decoded(None, buffer.View())
    ensures
      next.Some? ==>
        total == Joined(next.value, UnpackedIn(fmt[p + 1..], slots[count + Arity(fmt[p])..], buffer.View(), maxLen,
                                               allocs[p + 1..]))
  {
    var k := Arity(fmt[p]);
    UnpackedStep(fmt, slots, allocs, p, count, buffer.View(), maxLen);
    var one := UnpackOne(buffer, fmt[p], slots[count..count + k], maxLen, allocs[p]);
    if one.None? {
      return None;
    }
    JoinedTwice(got, one.value, UnpackedIn(fmt[p + 1..], slots[count + k..], buffer.View(), maxLen, allocs[p + 1..]));
    next := Some(got + one.value);
  }

  /**
   * ssh_buffer_unpack_va, for all outcomes of its allocations; the empty format is an
   * error. On an error what was read so far stays consumed.
   */
  method UnpackVa(buffer: SshBuffer, fmt: string, slots: seq<Slot>, allocs: seq<Memory>)
    returns (values: Option<seq<Value>>)
    requires buffer.Valid() && |allocs| == |fmt|
    requires forall s :: s in slots && s.Length? ==> s.n < TWO_64
    modifies buffer`pos
    ensures buffer.Valid()
    ensures fmt == [] || |slots| > MAX_ARGS ==> values == None && buffer.View() == old(buffer.View())
    ensures fmt != [] && |slots| <= MAX_ARGS ==>
              Decoded(values, buffer.View()) == UnpackedIn(fmt, slots, old(buffer.View()), old(|buffer.View()|), allocs)
    ensures
      fmt != [] && |slots| <= MAX_ARGS ==>
        if AnyLacks(fmt, allocs) then values == None
        else Decoded(values, buffer.View()) == Unpacked(fmt, slots, old(buffer.View()), old(|buffer.View()|))
  {
    if |slots| > MAX_ARGS || fmt == [] {
      return None;
    }
    var maxLen := buffer.used - buffer.pos;
    var p: nat, count: nat := 0, 0;
    var got: seq<Value> := [];
    ghost var total := UnpackedIn(fmt, slots, buffer.View(), maxLen, allocs);
    EnoughMemory(fmt, slots, buffer.View(), maxLen, allocs);
    assert fmt[0..] == fmt && slots[0..] == slots && allocs[0..] == allocs;
    JoinedNothing(total);
    while p < |fmt|
      invariant p <= |fmt| && count <= |slots|
      invariant buffer.Valid()
      invariant total == Joined(got, UnpackedIn(fmt[p..], slots[count..], buffer.View(), maxLen, allocs[p..]))
    {
      var k := Arity(fmt[p]);
      if count + k > |slots| {
        UnpackedStep(fmt, slots, allocs, p, count, buffer.View(), maxLen);
        return None;
      }
      var next := UnpackNext(buffer, fmt, slots, allocs, p, count, maxLen, got, total);
      if next.None? {
        return None;
      }
      got := next.value;
      count := count + k;
      p := p + 1;
    }
    UnpackedEnd(fmt[p..], slots, allocs[p..], count, buffer.View(), maxLen, got);
    values := if count == |slots| then Some(got) else None;
  }

  lemma UnpackedEnd(fmt: string, slots: seq<Slot>, allocs: seq<Memory>, count: nat, v: seq<byte>, maxLen: nat,
                    got: seq<Value>)
    requires fmt == [] && allocs == [] && count <= |slots| && maxLen < TWO_32
    ensures Joined(got, UnpackedIn(fmt, slots[count..], v, maxLen, allocs))
            == Decoded(if count == |slots| then Some(got) else None, v)
  {
    assert got + [] == got;
    assert |slots[count..]| == |slots| - count;
  }

  lemma JoinedNothing(d: Decoded)
    ensures Joined([], d) == d
  {
    if d.values.Some? {
      assert [] + d.values.value == d.values.value;
    }
  }

  lemma JoinedTwice(a: seq<Value>, b: seq<Value>, d: Decoded)
    ensures Joined(a, Joined(b, d)) == Joined(a + b, d)
  {
    if d.values.Some? {
      assert a + (b + d.values.value) == (a + b) + d.values.value;
    }
  }

  lemma UnpackedStep(fmt: string, slots: seq<Slot>, allocs: seq<Memory>, p: nat, count: nat, v: seq<byte>, maxLen: nat)
    requires p < |fmt| == |allocs| && count <= |slots| && maxLen < TWO_32
    ensures
      var k := Arity(fmt[p]);
      var whole := UnpackedIn(fmt[p..], slots[count..], v, maxLen, allocs[p..]);
      if count + k > |slots| then whole == Decoded(None, v)
      else
        var d := DecodeIn(fmt[p], slots[count..count + k], v, maxLen, allocs[p]);
        match d.values
        case None => whole == d
        case Some(first) =>
          whole == Joined(first, UnpackedIn(fmt[p + 1..], slots[count + k..], d.rest, maxLen, allocs[p + 1..]))
  {
    var k := Arity(fmt[p]);
    assert fmt[p..][0] == fmt[p] && fmt[p..][1..] == fmt[p + 1..];
    assert allocs[p..][0] == allocs[p] && allocs[p..][1..] == allocs[p + 1..];
    if count + k <= |slots| {
      assert slots[count..][..k] == slots[count..count + k] && slots[count..][k..] == slots[count + k..];
    }
  }

  // ---- Round trip ----

  /** The arguments of the unpack call that mirrors a pack call. */
  function Slots(args: seq<Value>): seq<Slot> {
    seq(|args|, i requires 0 <= i < |args| => if args[i].Size? then Length(args[i].k) else Pointer)
  }

  /** A value of the kind and range its letter can carry. */
  ghost predicate Carries(c: char, a: seq<Value>)
    requires |a| == Arity(c)
  {
    match c
    case 'b' => a[0].Num? && a[0].n < 0x100
    case 'w' => a[0].Num? && a[0].n < 0x1_0000
    case 'd' => a[0].Num? && a[0].n < TWO_32
    case 'q' => a[0].Num? && a[0].n < TWO_64
    case 'B' => a[0].Big?
    case 'S' => a[0].Str?
    case 's' => a[0].Text? && 0 !in a[0].s
    case 'P' => a[0].Size? && a[1].Mem? && |a[1].s| == a[0].k
    case _ => false
  }

  ghost predicate AllCarried(fmt: string, args: seq<Value>) {
    if fmt == [] then args == []
    else
      var k := Arity(fmt[0]);
      |args| >= k && Carries(fmt[0], args[..k]) && AllCarried(fmt[1..], args[k..])
  }

  /** Every 'P' of the format asks for less than the `maxLen` bytes the buffer holds; from an empty one for nothing. */
  ghost predicate AreasFit(fmt: string, args: seq<Value>, maxLen: nat)
    requires maxLen < TWO_32
  {
    fmt == [] || |args| < Arity(fmt[0])
    || ((fmt[0] == 'P' && args[0].Size? ==> args[0].k < maxLen || maxLen == args[0].k == 0)
        && AreasFit(fmt[1..], args[Arity(fmt[0])..], maxLen))
  }

  lemma FixedWidth(n: nat)
    ensures n < 0x100 ==> FromBytes(ToBytes(n, 1)) == n
    ensures n < 0x1_0000 ==> FromBytes(ToBytes(n, 2)) == n
    ensures n < TWO_32 ==> FromBytes(ToBytes(n, 4)) == n
    ensures n < TWO_64 ==> FromBytes(ToBytes(n, 8)) == n
  {
    assert Pow256(1) == 0x100 && Pow256(2) == 0x1_0000 && Pow256(4) == TWO_32 && Pow256(8) == TWO_64;
    FromToWidth(n, 1);
    FromToWidth(n, 2);
    FromToWidth(n, 4);
    FromToWidth(n, 8);
  }

  function Pow256(k: nat): nat {
    if k == 0 then 1 else 256 * Pow256(k - 1)
  }

  lemma {:induction false} FromToWidth(n: nat, k: nat)
    ensures n < Pow256(k) ==> FromBytes(ToBytes(n, k)) == n
  {
    if k > 0 {
      FromToWidth(n / 256, k - 1);
    }
  }

  lemma LengthField(b: seq<byte>)
    requires |b| == 4
    ensures BE32(b) == FromBytes(b)
  {
    var b3, b2, b1 := b[..3], b[..2], b[..1];
    assert b3[..2] == b2 && b2[..1] == b1 && b1[..0] == [];
    assert FromBytes(b1) == b[0] as nat;
    assert FromBytes(b2) == 0x100 * b[0] as nat + b[1] as nat;
    assert FromBytes(b3) == 0x1_0000 * b[0] as nat + 0x100 * b[1] as nat + b[2] as nat;
  }

  /** A string written with its length reads back, whatever follows it. */
  lemma StringBack(s: seq<byte>, tail: seq<byte>)
    requires |s| < TWO_32
    ensures TakeString(WithLength(s) + tail) == (Some(s), tail)
    ensures BE32((WithLength(s) + tail)[..4]) == |s| && (WithLength(s) + tail)[4..] == s + tail
  {
    var v := WithLength(s) + tail;
    assert v[..4] == ToBytes(|s|, 4) && v[4..] == s + tail;
    LengthField(v[..4]);
    FixedWidth(|s|);
  }

  lemma NumberBack(width: nat, n: nat, tail: seq<byte>)
    requires width in {1, 2, 4, 8} && n < Pow256(width)
    ensures TakeNumber(ToBytes(n, width) + tail, width) == Decoded(Some([Num(n)]), tail)
  {
    FromToWidth(n, width);
    var v := ToBytes(n, width) + tail;
    assert v[..width] == ToBytes(n, width) && v[width..] == tail;
  }

  lemma TextBack(s: seq<byte>, tail: seq<byte>, maxLen: nat)
    requires 0 !in s && |s| < TWO_32 && 4 + |s| + |tail| <= maxLen < TWO_32
    ensures TakeText(WithLength(s) + tail, maxLen) == Decoded(Some([Text(s)]), tail)
  {
    CStringWhole(s);
    StringBack(s, tail);
    assert (s + tail)[..|s|] == s && (s + tail)[|s|..] == tail;
  }

  lemma MemoryBack(n: nat, s: seq<byte>, tail: seq<byte>, maxLen: nat)
    requires |s| == n && maxLen < TWO_32
    ensures
      var d := TakeMemory(s + tail, n, maxLen);
      if n > MaxString(maxLen) then d.values == None else d == Decoded(Some([Size(n), Mem(s)]), tail)
  {
    assert (s + tail)[..n] == s && (s + tail)[n..] == tail;
  }

  lemma ByteBack(a: seq<Value>, tail: seq<byte>, maxLen: nat)
    requires |a| == 1 && Carries('b', a) && Encode('b', a).Some? && maxLen < TWO_32
    requires |Encode('b', a).value| + |tail| <= maxLen
    ensures Decode('b', Slots(a), Encode('b', a).value + tail, maxLen) == Decoded(Some(a), tail)
  {
    assert a == [a[0]];
    assert Pow256(1) == 0x100;
    assert a[0].n % 0x100 == a[0].n;
    NumberBack(1, a[0].n, tail);
  }

  lemma WordBack(a: seq<Value>, tail: seq<byte>, maxLen: nat)
    requires |a| == 1 && Carries('w', a) && Encode('w', a).Some? && maxLen < TWO_32
    requires |Encode('w', a).value| + |tail| <= maxLen
    ensures Decode('w', Slots(a), Encode('w', a).value + tail, maxLen) == Decoded(Some(a), tail)
  {
    assert a == [a[0]];
    assert Pow256(2) == 0x1_0000;
    assert a[0].n % 0x1_0000 == a[0].n;
    NumberBack(2, a[0].n, tail);
  }

  lemma DwordBack(a: seq<Value>, tail: seq<byte>, maxLen: nat)
    requires |a| == 1 && Carries('d', a) && Encode('d', a).Some? && maxLen < TWO_32
    requires |Encode('d', a).value| + |tail| <= maxLen
    ensures Decode('d', Slots(a), Encode('d', a).value + tail, maxLen) == Decoded(Some(a), tail)
  {
    assert a == [a[0]];
    assert Pow256(4) == TWO_32;
    assert a[0].n % TWO_32 == a[0].n;
    NumberBack(4, a[0].n, tail);
  }

  lemma QwordBack(a: seq<Value>, tail: seq<byte>, maxLen: nat)
    requires |a| == 1 && Carries('q', a) && Encode('q', a).Some? && maxLen < TWO_32
    requires |Encode('q', a).value| + |tail| <= maxLen
    ensures Decode('q', Slots(a), Encode('q', a).value + tail, maxLen) == Decoded(Some(a), tail)
  {
    assert a == [a[0]];
    assert Pow256(8) == TWO_64;
    assert a[0].n % TWO_64 == a[0].n;
    NumberBack(8, a[0].n, tail);
  }

  lemma BigBack(a: seq<Value>, tail: seq<byte>, maxLen: nat)
    requires |a| == 1 && Carries('B', a) && Encode('B', a).Some? && maxLen < TWO_32
    requires |Encode('B', a).value| + |tail| <= maxLen
    ensures Decode('B', Slots(a), Encode('B', a).value + tail, maxLen) == Decoded(Some(a), tail)
  {
    assert a == [a[0]];
    MpintCorrect(a[0].n);
    StringBack(Mpint(a[0].n), tail);
  }

  lemma StrBack(a: seq<Value>, tail: seq<byte>, maxLen: nat)
    requires |a| == 1 && Carries('S', a) && Encode('S', a).Some? && maxLen < TWO_32
    requires |Encode('S', a).value| + |tail| <= maxLen
    ensures Decode('S', Slots(a), Encode('S', a).value + tail, maxLen) == Decoded(Some(a), tail)
  {
    assert a == [a[0]];
    StringBack(a[0].s, tail);
  }

  lemma CStringBack(a: seq<Value>, tail: seq<byte>, maxLen: nat)
    requires |a| == 1 && Carries('s', a) && Encode('s', a).Some? && maxLen < TWO_32
    requires |Encode('s', a).value| + |tail| <= maxLen
    ensures Decode('s', Slots(a), Encode('s', a).value + tail, maxLen) == Decoded(Some(a), tail)
  {
    assert a == [a[0]];
    CStringWhole(a[0].s);
    TextBack(a[0].s, tail, maxLen);
  }

  lemma AreaBack(a: seq<Value>, tail: seq<byte>, maxLen: nat)
    requires |a| == 2 && Carries('P', a) && Encode('P', a).Some? && maxLen < TWO_32
    ensures
      var d := Decode('P', Slots(a), Encode('P', a).value + tail, maxLen);
      if a[0].k > MaxString(maxLen) then d.values == None else d == Decoded(Some(a), tail)
  {
    assert a == [a[0], a[1]];
    assert a[1].s[..a[0].k] == a[1].s;
    MemoryBack(a[0].k, a[1].s, tail, maxLen);
  }

  /** One letter: it reads back exactly the value, except that a 'P' may ask for too much. */
  lemma OneBack(c: char, a: seq<Value>, tail: seq<byte>, maxLen: nat)
    requires |a| == Arity(c) && Carries(c, a) && Encode(c, a).Some? && maxLen < TWO_32
    requires |Encode(c, a).value| + |tail| <= maxLen
    ensures
      var d := Decode(c, Slots(a), Encode(c, a).value + tail, maxLen);
      if c == 'P' && a[0].k > MaxString(maxLen) then d.values == None else d == Decoded(Some(a), tail)
  {
    match c
    case 'b' => ByteBack(a, tail, maxLen);
    case 'w' => WordBack(a, tail, maxLen);
    case 'd' => DwordBack(a, tail, maxLen);
    case 'q' => QwordBack(a, tail, maxLen);
    case 'B' => BigBack(a, tail, maxLen);
    case 'S' => StrBack(a, tail, maxLen);
    case 's' => CStringBack(a, tail, maxLen);
    case 'P' => AreaBack(a, tail, maxLen);
    case _ =>
  }

  lemma {:induction false} RoundTripWithin(fmt: string, args: seq<Value>, tail: seq<byte>, maxLen: nat)
    requires AllCarried(fmt, args) && Packed(fmt, args).Some?
    requires |Packed(fmt, args).value| + |tail| <= maxLen < TWO_32
    requires AreasFit(fmt, args, maxLen)
    ensures Unpacked(fmt, Slots(args), Packed(fmt, args).value + tail, maxLen) == Decoded(Some(args), tail)
  {
    if fmt == [] {
      assert [] + tail == tail;
    } else {
      var k := Arity(fmt[0]);
      var first, rest := Encode(fmt[0], args[..k]).value, Packed(fmt[1..], args[k..]).value;
      RoundTripWithin(fmt[1..], args[k..], tail, maxLen);
      OneMoreLetter(fmt, args, first, rest, tail, maxLen);
    }
  }

  lemma {:induction false} OneMoreLetter(fmt: string, args: seq<Value>, first: seq<byte>, rest: seq<byte>,
                    tail: seq<byte>, maxLen: nat)
    requires fmt != [] && |args| >= Arity(fmt[0]) && maxLen < TWO_32 && |first| + |rest| + |tail| <= maxLen
    requires Carries(fmt[0], args[..Arity(fmt[0])]) && Encode(fmt[0], args[..Arity(fmt[0])]) == Some(first)
    requires !(fmt[0] == 'P' && args[0].k > MaxString(maxLen))
    requires Unpacked(fmt[1..], Slots(args[Arity(fmt[0])..]), rest + tail, maxLen)
             == Decoded(Some(args[Arity(fmt[0])..]), tail)
    ensures Unpacked(fmt, Slots(args), first + rest + tail, maxLen) == Decoded(Some(args), tail)
  {
    FirstLetterBack(fmt, args, first, rest + tail, maxLen);
    SplitAnew(args, Arity(fmt[0]), first, rest, tail);
  }

  lemma SplitAnew(args: seq<Value>, k: nat, first: seq<byte>, rest: seq<byte>, tail: seq<byte>)
    requires k <= |args|
    ensures first + rest + tail == first + (rest + tail)
    ensures Joined(args[..k], Decoded(Some(args[k..]), tail)) == Decoded(Some(args), tail)
  {
    assert args == args[..k] + args[k..];
  }

  lemma {:induction false} RoundTripBeyond(fmt: string, args: seq<Value>, tail: seq<byte>, maxLen: nat)
    requires AllCarried(fmt, args) && Packed(fmt, args).Some?
    requires |Packed(fmt, args).value| + |tail| <= maxLen < TWO_32
    requires !AreasFit(fmt, args, maxLen)
    ensures Unpacked(fmt, Slots(args), Packed(fmt, args).value + tail, maxLen).values == None
  {
    var k := Arity(fmt[0]);
    var a, more := args[..k], args[k..];
    var first, rest := Encode(fmt[0], a).value, Packed(fmt[1..], more).value;
    assert (first + rest) + tail == first + (rest + tail);
    FirstLetterBack(fmt, args, first, rest + tail, maxLen);
    if !AreasFit(fmt[1..], more, maxLen) {
      RoundTripBeyond(fmt[1..], more, tail, maxLen);
    }
  }

  /**
   * Unpacking what was packed with the same format returns exactly the packed values and
   * leaves whatever follows untouched, if and only if every 'P' is within unpack's bound.
   */
  lemma RoundTrip(fmt: string, args: seq<Value>, tail: seq<byte>, maxLen: nat)
    requires AllCarried(fmt, args) && Packed(fmt, args).Some?
    requires |Packed(fmt, args).value| + |tail| <= maxLen < TWO_32
    ensures
      var d := Unpacked(fmt, Slots(args), Packed(fmt, args).value + tail, maxLen);
      if AreasFit(fmt, args, maxLen) then d == Decoded(Some(args), tail) else d.values == None
  {
    if AreasFit(fmt, args, maxLen) {
      RoundTripWithin(fmt, args, tail, maxLen);
    } else {
      RoundTripBeyond(fmt, args, tail, maxLen);
    }
  }

  /** Unpacking what starts with the encoding of the first letter reads that, then goes on as the rest does. */
  lemma {:induction false} FirstLetterBack(fmt: string, args: seq<Value>, first: seq<byte>, more: seq<byte>, maxLen: nat)
    requires fmt != [] && |args| >= Arity(fmt[0]) && maxLen < TWO_32 && |first| + |more| <= maxLen
    requires Carries(fmt[0], args[..Arity(fmt[0])]) && Encode(fmt[0], args[..Arity(fmt[0])]) == Some(first)
    ensures
      var k := Arity(fmt[0]);
      var d := Unpacked(fmt, Slots(args), first + more, maxLen);
      if fmt[0] == 'P' && args[0].k > MaxString(maxLen) then d.values == None
      else d == Joined(args[..k], Unpacked(fmt[1..], Slots(args[k..]), more, maxLen))
  {
    assert args[..Arity(fmt[0])][0] == args[0];
    OneBack(fmt[0], args[..Arity(fmt[0])], more, maxLen);
    FirstLetter(fmt, args, first + more, maxLen);
  }

  /** The mirrored call reads the first letter, then the rest. */
  lemma FirstLetter(fmt: string, args: seq<Value>, v: seq<byte>, maxLen: nat)
    requires fmt != [] && |args| >= Arity(fmt[0]) && maxLen < TWO_32
    ensures
      var k := Arity(fmt[0]);
      var d := Decode(fmt[0], Slots(args[..k]), v, maxLen);
      Unpacked(fmt, Slots(args), v, maxLen)
      == if d.values.None? then d else Joined(d.values.value, Unpacked(fmt[1..], Slots(args[k..]), d.rest, maxLen))
  {
    var k := Arity(fmt[0]);
    assert Slots(args)[..k] == Slots(args[..k]) && Slots(args)[k..] == Slots(args[k..]);
  }

  lemma AreaEncoded(s: seq<byte>)
    requires |s| < TWO_32
    ensures Encode('P', [Size(|s|), Mem(s)]) == Some(s)
  {
    assert s[..|s|] == s;
  }

  /** A lone non-empty 'P' packs, but never unpacks from a buffer that holds nothing else. */
  lemma {:induction false} WholeBufferArea(s: seq<byte>)
    requires 0 < |s| < TWO_32
    ensures Packed("P", [Size(|s|), Mem(s)]) == Some(s)
    ensures Unpacked("P", [Length(|s|), Pointer], s, |s|).values == None
  {
    var a := [Size(|s|), Mem(s)];
    assert a[..2] == a && a[2..] == [] && "P"[1..] == [];
    AreaEncoded(s);
    assert Packed([], []) == Some([]);
    assert s + [] == s;
    assert Slots(a) == [Length(|s|), Pointer];
    assert Carries('P', a);
    assert AllCarried([], []) && AllCarried("P", a);
    RoundTrip("P", a, [], |s|);
  }
}
