/**
 * The format-string codec of buffer.c: the size pre-pass, pack and unpack. A call
 * is a format and a list of argument values; an argument of the wrong kind for its
 * letter, which C leaves undefined, is an error here.
 */
module Codec {
  import opened Octets
  import opened SshBuffers
  import opened Bignum

  const UINT32_MAX: nat := TWO_32 - 1
  const MAX_ARGS: nat := 256

  datatype Value =
    | Num(n: nat)          // for b, w, d and q
    | Str(s: seq<byte>)    // an ssh_string, for S
    | Text(s: seq<byte>)   // memory holding a C string, for s and t
    | Size(k: nat)         // a size_t, for P and F
    | Mem(s: seq<byte>)    // a memory area, for P
    | Big(n: nat)          // a bignum, for B and F

  function Arity(c: char): nat {
    if c == 'P' || c == 'F' then 2 else 1
  }

  /** The bytes of a C string: up to the first NUL. */
  function CString(s: seq<byte>): seq<byte> {
    if s == [] || s[0] == 0 then [] else [s[0]] + CString(s[1..])
  }

  lemma {:induction false} CStringWhole(s: seq<byte>)
    requires 0 !in s
    ensures CString(s) == s
  {
    if s != [] {
      CStringWhole(s[1..]);
    }
  }

  function WithLength(s: seq<byte>): seq<byte> {
    ToBytes(|s|, 4) + s
  }

  // ---- Packing ----

  /** What one letter appends to the buffer; None when packing stops with an error. */
  function Encode(c: char, a: seq<Value>): Option<seq<byte>>
    requires |a| == Arity(c)
  {
    match c
    case 'b' => if a[0].Num? then Some(ToBytes(a[0].n % 0x100, 1)) else None
    case 'w' => if a[0].Num? then Some(ToBytes(a[0].n % 0x1_0000, 2)) else None
    case 'd' => if a[0].Num? then Some(ToBytes(a[0].n % TWO_32, 4)) else None
    case 'q' => if a[0].Num? then Some(ToBytes(a[0].n % TWO_64, 8)) else None
    case 'S' => if a[0].Str? && |a[0].s| <= STRING_SIZE_MAX then Some(WithLength(a[0].s)) else None
    case 's' => if a[0].Text? && |CString(a[0].s)| <= UINT32_MAX then Some(WithLength(CString(a[0].s))) else None
    case 't' => if a[0].Text? && |CString(a[0].s)| <= UINT32_MAX then Some(CString(a[0].s)) else None
    case 'P' =>
      if a[0].Size? && a[1].Mem? && a[0].k <= |a[1].s| && a[0].k <= UINT32_MAX then Some(a[1].s[..a[0].k]) else None
    case 'B' => if a[0].Big? then LengthOf(BignumString(a[0].n, 0)) else None
    case 'F' => if a[0].Big? && a[1].Size? then LengthOf(BignumString(a[0].n, a[1].k)) else None
    case _ => None
  }

  lemma SameLowByte(q: nat, m: nat)
    ensures (0x100 * q + m) % 0x100 == m % 0x100
  {
  }

  lemma LowTwoDigits(n: nat)
    ensures n % 0x1_0000 / 0x100 % 0x100 == n / 0x100 % 0x100 && n % 0x1_0000 % 0x100 == n % 0x100
  {
    var q, m := n / 0x1_0000, n % 0x1_0000;
    assert n == 0x1_0000 * q + m;
    assert n / 0x100 == 0x100 * q + m / 0x100;
    assert n == 0x100 * (0x100 * q) + m;
    SameLowByte(q, m / 0x100);
    SameLowByte(0x100 * q, m);
  }

  lemma WordFormat(n: nat)
    ensures Encode('w', [Num(n)]) == Some([n / 0x100 % 0x100, n % 0x100])
  {
    TwoDigits(n % 0x1_0000);
    LowTwoDigits(n);
  }

  /** The low four digits do not depend on what is above them. */
  lemma {:induction false} LowDigits(n: nat)
    ensures
      var m := n % TWO_32;
      && m / 0x100_0000 % 0x100 == n / 0x100_0000 % 0x100 && m / 0x1_0000 % 0x100 == n / 0x1_0000 % 0x100
      && m / 0x100 % 0x100 == n / 0x100 % 0x100 && m % 0x100 == n % 0x100
  {
    var q, m := n / TWO_32, n % TWO_32;
    assert n == 0x1_0000_0000 * q + m;
    assert n / 0x100_0000 == 0x100 * q + m / 0x100_0000;
    assert n / 0x1_0000 == 0x100 * (0x100 * q) + m / 0x1_0000;
    assert n / 0x100 == 0x100 * (0x1_0000 * q) + m / 0x100;
    assert n == 0x100 * (0x100_0000 * q) + m;
    SameLowByte(q, m / 0x100_0000);
    SameLowByte(0x100 * q, m / 0x1_0000);
    SameLowByte(0x1_0000 * q, m / 0x100);
    SameLowByte(0x100_0000 * q, m);
  }

  lemma DwordFormat(n: nat)
    ensures Encode('d', [Num(n)])
            == Some([n / 0x100_0000 % 0x100, n / 0x1_0000 % 0x100, n / 0x100 % 0x100, n % 0x100])
  {
    FourDigits(n % TWO_32);
    LowDigits(n);
  }

  /** Eight bytes are four and four. */
  lemma QwordHalves(n: nat)
    ensures ToBytes(n, 8) == ToBytes(n / TWO_32, 4) + ToBytes(n % TWO_32, 4)
  {
    var n1 := n / 0x100;
    var n2 := n1 / 0x100;
    var n3 := n2 / 0x100;
    var n4 := n3 / 0x100;
    AppendDigit(n1, n % 0x100, 7);
    AppendDigit(n2, n1 % 0x100, 6);
    AppendDigit(n3, n2 % 0x100, 5);
    AppendDigit(n4, n3 % 0x100, 4);
    FourDigits(n % TWO_32);
    assert n1 == n / 0x100 && n2 == n / 0x1_0000 && n3 == n / 0x100_0000 && n4 == n / TWO_32;
    LowDigits(n);
  }

  lemma LowHalves(n: nat)
    ensures n % TWO_64 / TWO_32 == n / TWO_32 % TWO_32 && n % TWO_64 % TWO_32 == n % TWO_32
  {
    var q, m := n / TWO_64, n % TWO_64;
    assert n == TWO_32 * (TWO_32 * q) + m;
    assert n / TWO_32 == TWO_32 * q + m / TWO_32;
    LowWord(q, m / TWO_32);
    LowWord(TWO_32 * q, m);
  }

  lemma LowWord(q: nat, m: nat)
    ensures (TWO_32 * q + m) % TWO_32 == m % TWO_32
  {
  }

  /** A 64-bit number is the bytes of its high half, then those of its low half. */
  lemma QwordFormat(n: nat)
    ensures
      var high, low := n / TWO_32, n % TWO_32;
      Encode('q', [Num(n)]) == Some(Encode('d', [Num(high)]).value + Encode('d', [Num(low)]).value)
  {
    QwordHalves(n % TWO_64);
    LowHalves(n);
  }

  /** Numbers are written most significant byte first, reduced to the width of the field. */
  lemma NumberFormat(n: nat)
    ensures Encode('b', [Num(n)]) == Some([n % 0x100])
    ensures Encode('w', [Num(n)]) == Some([n / 0x100 % 0x100, n % 0x100])
    ensures Encode('d', [Num(n)])
            == Some([n / 0x100_0000 % 0x100, n / 0x1_0000 % 0x100, n / 0x100 % 0x100, n % 0x100])
    ensures
      var high, low := n / TWO_32, n % TWO_32;
      Encode('q', [Num(n)]) == Some(Encode('d', [Num(high)]).value + Encode('d', [Num(low)]).value)
  {
    OneDigit(n % 0x100);
    WordFormat(n);
    DwordFormat(n);
    QwordFormat(n);
  }

  /** The four bytes of a length. */
  function LengthBytes(n: nat): seq<byte> {
    [n / 0x100_0000 % 0x100, n / 0x1_0000 % 0x100, n / 0x100 % 0x100, n % 0x100]
  }

  /** Strings are written after their length; one that is too long is an error. */
  lemma StringFormat(s: seq<byte>)
    ensures Encode('S', [Str(s)]) == if |s| <= STRING_SIZE_MAX then Some(LengthBytes(|s|) + s) else None
  {
    FourDigits(|s|);
  }

  lemma {:induction false} CStringEnds(s: seq<byte>, more: seq<byte>)
    requires 0 !in s
    ensures CString(s) == s && CString(s + [0] + more) == s
  {
    CStringWhole(s);
    if s == [] {
      assert ([0] + more)[0] == 0 && s + [0] + more == [0] + more;
    } else {
      CStringEnds(s[1..], more);
      assert (s + [0] + more)[1..] == s[1..] + [0] + more;
    }
  }

  /** C strings are written up to their terminator, 's' after their length and 't' without it. */
  lemma TextFormat(s: seq<byte>, more: seq<byte>)
    requires 0 !in s
    ensures
      forall text :: text == s || text == s + [0] + more ==>
        && Encode('s', [Text(text)]) == (if |s| < TWO_32 then Some(LengthBytes(|s|) + s) else None)
        && Encode('t', [Text(text)]) == (if |s| < TWO_32 then Some(s) else None)
  {
    CStringEnds(s, more);
    FourDigits(|s|);
  }

  /** A memory area is its first bytes, as many as asked for. */
  lemma AreaFormat(k: nat, s: seq<byte>)
    ensures Encode('P', [Size(k), Mem(s)]) == if k <= |s| && k < TWO_32 then Some(s[..k]) else None
  {
  }

  /** A bignum is its string after its length: minimal for 'B', for 'F' padded in front to the length asked for. */
  lemma {:induction false} BignumFormat(n: nat, k: nat)
    ensures Encode('B', [Big(n)])
            == if |Mpint(n)| <= STRING_SIZE_MAX then Some(LengthBytes(|Mpint(n)|) + Mpint(n)) else None
    ensures k > 0 ==>
              Encode('F', [Big(n), Size(k)])
              == if NumBytes(n) <= k <= STRING_SIZE_MAX then
                   Some(LengthBytes(k) + (Zeros(k - NumBytes(n)) + ToBytes(n, NumBytes(n))))
                 else None
  {
    FourDigits(|Mpint(n)|);
    FourDigits(k);
  }

  /** No other letter is a format. */
  lemma NoFormat(c: char, a: seq<Value>)
    requires |a| == Arity(c) && c !in "bwdqSstPBF"
    ensures Encode(c, a) == None
  {
    assert c !in ['b', 'w', 'd', 'q', 'S', 's', 't', 'P', 'B', 'F'];
  }

  lemma OneDigit(n: nat)
    ensures ToBytes(n, 1) == [n % 0x100]
  {
    AppendDigit(n / 0x100, n % 0x100, 0);
  }

  lemma TwoDigits(n: nat)
    ensures ToBytes(n, 2) == [n / 0x100 % 0x100, n % 0x100]
  {
    AppendDigit(n / 0x100, n % 0x100, 1);
    OneDigit(n / 0x100);
  }

  lemma FourDigits(n: nat)
    ensures ToBytes(n, 4) == [n / 0x100_0000 % 0x100, n / 0x1_0000 % 0x100, n / 0x100 % 0x100, n % 0x100]
  {
    var n1 := n / 0x100;
    var n2 := n1 / 0x100;
    AppendDigit(n1, n % 0x100, 3);
    AppendDigit(n2, n1 % 0x100, 2);
    TwoDigits(n2);
    assert n2 == n / 0x1_0000 && n2 / 0x100 == n / 0x100_0000;
  }

  function LengthOf(s: Option<seq<byte>>): Option<seq<byte>> {
    match s
    case None => None
    case Some(b) => Some(WithLength(b))
  }

  function Before(first: seq<byte>, rest: Option<seq<byte>>): Option<seq<byte>> {
    match rest
    case None => None
    case Some(b) => Some(first + b)
  }

  /** The bytes a whole format appends; None when the arguments do not match it. */
  function Packed(fmt: string, args: seq<Value>): Option<seq<byte>> {
    if fmt == [] then
      if args == [] then Some([]) else None
    else
      var k := Arity(fmt[0]);
      if |args| < k then None
      else
        match Encode(fmt[0], args[..k])
        case None => None
        case Some(b) => Before(b, Packed(fmt[1..], args[k..]))
  }

  /** The number of arguments a format takes: two for an area and for a padded bignum, else one a letter. */
  function Arguments(fmt: string): nat {
    if fmt == [] then 0 else (if fmt[0] == 'P' || fmt[0] == 'F' then 2 else 1) + Arguments(fmt[1..])
  }

  /** Letter by letter a call packs the concatenation; it must have exactly the arguments its format takes. */
  lemma {:induction false} PackedConcatenates(fmt: string, args: seq<Value>, c: char, a: seq<Value>)
    requires |a| == Arity(c)
    ensures Packed(fmt, args).Some? ==> |args| == Arguments(fmt)
    ensures |args| == Arguments(fmt) ==>
              Packed(fmt + [c], args + a)
              == match (Packed(fmt, args), Encode(c, a)) case (Some(b), Some(last)) => Some(b + last) case _ => None
  {
    if fmt == [] {
      if args == [] {
        OneLetter(c, a);
        assert [] + [c] == [c] && args + a == a;
      }
    } else {
      var k := Arity(fmt[0]);
      if |args| >= k {
        PackedConcatenates(fmt[1..], args[k..], c, a);
        assert (fmt + [c])[1..] == fmt[1..] + [c];
        assert (args + a)[..k] == args[..k] && (args + a)[k..] == args[k..] + a;
        var x, y, z := Encode(fmt[0], args[..k]), Packed(fmt[1..], args[k..]), Encode(c, a);
        if x.Some? && y.Some? && z.Some? {
          assert x.value + (y.value + z.value) == (x.value + y.value) + z.value;
        }
      }
    }
  }

  lemma {:induction false} OneLetter(c: char, a: seq<Value>)
    requires |a| == Arity(c)
    ensures Packed([c], a) == match Encode(c, a) case None => None case Some(b) => Some([] + b)
  {
    assert [c][1..] == [] && a[..Arity(c)] == a && a[Arity(c)..] == [];
    if Encode(c, a).Some? {
      assert Encode(c, a).value + [] == [] + Encode(c, a).value;
    }
  }

  lemma BeforeNothing(rest: Option<seq<byte>>)
    ensures Before([], rest) == rest
  {
    if rest.Some? {
      assert [] + rest.value == rest.value;
    }
  }

  lemma BeforeTwice(a: seq<byte>, b: seq<byte>, rest: Option<seq<byte>>)
    ensures Before(a, Before(b, rest)) == Before(a + b, rest)
  {
    if rest.Some? {
      assert a + (b + rest.value) == (a + b) + rest.value;
    }
  }

  /** Packing the rest of a call: one letter, then the rest of that. */
  lemma PackedStep(fmt: string, args: seq<Value>, p: nat, count: nat)
    requires p < |fmt| && count <= |args|
    ensures
      var k := Arity(fmt[p]);
      var rest := Packed(fmt[p..], args[count..]);
      if count + k > |args| then rest == None
      else
        match Encode(fmt[p], args[count..count + k])
        case None => rest == None
        case Some(b) => rest == Before(b, Packed(fmt[p + 1..], args[count + k..]))
  {
    var k := Arity(fmt[p]);
    assert fmt[p..][0] == fmt[p] && fmt[p..][1..] == fmt[p + 1..];
    if count + k <= |args| {
      assert args[count..][..k] == args[count..count + k] && args[count..][k..] == args[count + k..];
    }
  }

  lemma TooFewArguments(fmt: string, args: seq<Value>, p: nat, count: nat)
    requires p < |fmt| && count <= |args| < count + Arity(fmt[p])
    ensures Packed(fmt[p..], args[count..]) == None
  {
    PackedStep(fmt, args, p, count);
  }

  /**
   * Whether the allocations of one letter succeed: first that of a bignum's string, or of
   * room for the length of a C string, then that of room for the bytes.
   */
  datatype Memory = Memory(first: bool, second: bool)

  /** A bignum needs a string of its own, however much room the buffer has. */
  predicate StringLost(c: char, m: Memory) {
    (c == 'B' || c == 'F') && !m.first
  }

  predicate Scarce(m: Memory) {
    !m.first || !m.second
  }

  /** Some bignum of a call gets no string. */
  ghost predicate AnyStringLost(fmt: string, allocs: seq<Memory>)
    requires |allocs| == |fmt|
  {
    exists i :: 0 <= i < |fmt| && StringLost(fmt[i], allocs[i])
  }

  ghost predicate AnyScarce(allocs: seq<Memory>) {
    exists m :: m in allocs && Scarce(m)
  }

  /** The length of a C string and its bytes are added separately. */
  method PackText(buffer: SshBuffer, length: seq<byte>, text: seq<byte>, m: Memory) returns (ok: bool)
    requires buffer.Valid() && |length| == 4 && |text| < TWO_32
    modifies buffer, buffer.data
    ensures buffer.Valid() && (fresh(buffer.data) || buffer.data == old(buffer.data))
    ensures buffer.View() == old(buffer.View()) + length + text
            || (!ok && (buffer.View() == old(buffer.View()) || buffer.View() == old(buffer.View()) + length))
    ensures !ok ==>
              && (Scarce(m) || old(|buffer.View()|) + 4 + |text| >= BUFFER_SIZE_MAX)
              && old(buffer.used) + 4 + |text| > old(buffer.data.Length)
    ensures old(buffer.used) + 4 + |text| <= old(buffer.data.Length) ==>
              buffer.data == old(buffer.data) && buffer.used == old(buffer.used) + 4 + |text|
  {
    ok := buffer.AddData(length, m.first);
    if ok {
      ok := buffer.AddData(text, m.second);
    }
  }

  lemma PackedEnd(fmt: string, args: seq<Value>, count: nat, done: seq<byte>)
    requires fmt == [] && count <= |args|
    ensures Before(done, Packed(fmt, args[count..])) == if count == |args| then Some(done) else None
  {
    assert done + [] == done;
    assert |args[count..]| == |args| - count;
  }

  /** One turn of the packing loop. */
  method PackOne(buffer: SshBuffer, c: char, a: seq<Value>, m: Memory) returns (ok: bool)
    requires buffer.Valid() && |a| == Arity(c)
    modifies buffer, buffer.data
    ensures buffer.Valid() && (fresh(buffer.data) || buffer.data == old(buffer.data))
    ensures old(buffer.View()) <= buffer.View()
    ensures ok ==> !StringLost(c, m) && Encode(c, a).Some? && buffer.View() == old(buffer.View()) + Encode(c, a).value
    ensures !ok && Encode(c, a).Some? && !StringLost(c, m) ==>
              && (Scarce(m) || old(|buffer.View()|) + |Encode(c, a).value| >= BUFFER_SIZE_MAX)
              && old(buffer.used) + |Encode(c, a).value| > old(buffer.data.Length)
    ensures ok && old(buffer.used) + |Encode(c, a).value| <= old(buffer.data.Length) ==>
              buffer.data == old(buffer.data) && buffer.used == old(buffer.used) + |Encode(c, a).value|
  {
    var bytes := LetterBytes(c, a, m.first);
    if bytes.None? {
      return false;
    }
    if c == 's' {
      var text := CString(a[0].s);
      var length := ToBytes(|text|, 4);
      ok := PackText(buffer, length, text, m);
      assert old(buffer.View()) + length + text == old(buffer.View()) + bytes.value;
    } else {
      EncodedSize(c, a);
      ok := buffer.AddData(bytes.value, m.second);
    }
  }

  /** The conversion of one argument. */
  method LetterBytes(c: char, a: seq<Value>, stringOk: bool) returns (bytes: Option<seq<byte>>)
    requires |a| == Arity(c)
    ensures bytes == if (c == 'B' || c == 'F') && !stringOk then None else Encode(c, a)
  {
    if c == 'B' || c == 'F' {
      if !a[0].Big? || (c == 'F' && !a[1].Size?) {
        return None;
      }
      var str := MakeBignumString(a[0].n, if c == 'F' then a[1].k else 0, stringOk);
      return LengthOf(str);
    }
    bytes := Encode(c, a);
  }

  lemma EncodedSize(c: char, a: seq<Value>)
    requires |a| == Arity(c) && Encode(c, a).Some? && c != 's'
    ensures |Encode(c, a).value| < TWO_32
  {
  }

  /** What a call has packed so far: `done` is in the buffer after `v0`, the rest of the format is to come. */
  ghost predicate PackedSoFar(buffer: SshBuffer, v0: seq<byte>, done: seq<byte>, total: Option<seq<byte>>,
                              fmt: string, args: seq<Value>, p: nat, count: nat)
    requires p <= |fmt| && count <= |args|
    reads buffer, buffer.data
  {
    && buffer.Valid()
    && buffer.View() == v0 + done
    && total == Before(done, Packed(fmt[p..], args[count..]))
  }

  /** The same turn, in terms of what is left of the call; `next` is what is done if it succeeds. */
  method PackNext(buffer: SshBuffer, fmt: string, args: seq<Value>, p: nat, count: nat, m: Memory,
                  ghost v0: seq<byte>, ghost done: seq<byte>, ghost total: Option<seq<byte>>)
    returns (ok: bool, ghost next: seq<byte>)
    requires p < |fmt| && count + Arity(fmt[p]) <= |args|
    requires PackedSoFar(buffer, v0, done, total, fmt, args, p, count)
    modifies buffer, buffer.data
    ensures buffer.Valid() && (fresh(buffer.data) || buffer.data == old(buffer.data))
    ensures v0 + done <= buffer.View()
    ensures ok ==> !StringLost(fmt[p], m)
    ensures ok ==> PackedSoFar(buffer, v0, next, total, fmt, args, p + 1, count + Arity(fmt[p]))
    ensures !ok && total.Some? && !StringLost(fmt[p], m) ==>
              && (Scarce(m) || |v0| + |total.value| >= BUFFER_SIZE_MAX)
              && old(buffer.used) + (|total.value| - |done|) > old(buffer.data.Length)
    ensures |done| <= |next|
    ensures ok && old(buffer.used) + (|next| - |done|) <= old(buffer.data.Length) ==>
              buffer.data == old(buffer.data) && buffer.used == old(buffer.used) + (|next| - |done|)
  {
    PackedStep(fmt, args, p, count);
    var a := args[count..count + Arity(fmt[p])];
    ok := PackOne(buffer, fmt[p], a, m);
    ghost var encoded := Encode(fmt[p], a);
    next := done;
    if encoded.Some? {
      next := done + encoded.value;
      BeforeTwice(done, encoded.value, Packed(fmt[p + 1..], args[count + Arity(fmt[p])..]));
      assert v0 + done + encoded.value == v0 + next;
    }
  }

  /** The packing loop; `allocs` holds the outcomes of the allocations, letter by letter. */
  method PackLoop(buffer: SshBuffer, fmt: string, args: seq<Value>, allocs: seq<Memory>) returns (ok: bool)
    requires buffer.Valid() && fmt != [] && |allocs| == |fmt|
    modifies buffer, buffer.data
    ensures buffer.Valid() && (fresh(buffer.data) || buffer.data == old(buffer.data))
    ensures old(buffer.View()) <= buffer.View()
    ensures ok ==> Packed(fmt, args).Some? && buffer.View() == old(buffer.View()) + Packed(fmt, args).value
    ensures ok ==> !AnyStringLost(fmt, allocs)
    ensures !ok && Packed(fmt, args).Some? && !AnyStringLost(fmt, allocs) ==>
              && (AnyScarce(allocs) || old(|buffer.View()|) + |Packed(fmt, args).value| >= BUFFER_SIZE_MAX)
              && old(buffer.used) + |Packed(fmt, args).value| > old(buffer.data.Length)
    ensures ok && old(buffer.used) + |Packed(fmt, args).value| <= old(buffer.data.Length) ==>
              buffer.data == old(buffer.data)
  {
    ok := true;
    var p: nat, count: nat := 0, 0;
    ghost var v0, used0, data0 := buffer.View(), buffer.used, buffer.data;
    ghost var total := Packed(fmt, args);
    ghost var done: seq<byte> := [];
    assert fmt[0..] == fmt && args[0..] == args;
    BeforeNothing(total);
    while p < |fmt|
      invariant p <= |fmt| && count <= |args|
      invariant PackedSoFar(buffer, v0, done, total, fmt, args, p, count)
      invariant fresh(buffer.data) || buffer.data == data0
      invariant forall i :: 0 <= i < p ==> !StringLost(fmt[i], allocs[i])
      invariant ok
      invariant used0 + |done| <= data0.Length ==> buffer.data == data0 && buffer.used == used0 + |done|
    {
      var k := Arity(fmt[p]);
      if count + k > |args| {
        TooFewArguments(fmt, args, p, count);
        return false;
      }
      assert allocs[p] in allocs;
      ok, done := PackNext(buffer, fmt, args, p, count, allocs[p], v0, done, total);
      if !ok {
        return;
      }
      count := count + k;
      p := p + 1;
    }
    PackedEnd(fmt[p..], args, count, done);
    if count != |args| {
      return false;
    }
  }

  /**
   * ssh_buffer_pack_va, for all outcomes of the allocations on the way. The result code
   * starts out as an error, so the empty format is an error.
   */
  method PackVa(buffer: SshBuffer, fmt: string, args: seq<Value>, allocs: seq<Memory>) returns (ok: bool)
    requires buffer.Valid() && |allocs| == |fmt|
    modifies buffer, buffer.data
    ensures buffer.Valid() && (fresh(buffer.data) || buffer.data == old(buffer.data))
    ensures old(buffer.View()) <= buffer.View()
    ensures ok ==> fmt != [] && |args| <= MAX_ARGS && !AnyStringLost(fmt, allocs)
    ensures ok ==> Packed(fmt, args).Some? && buffer.View() == old(buffer.View()) + Packed(fmt, args).value
    ensures !ok && fmt != [] && |args| <= MAX_ARGS && Packed(fmt, args).Some? && !AnyStringLost(fmt, allocs) ==>
              && (AnyScarce(allocs) || old(|buffer.View()|) + |Packed(fmt, args).value| >= BUFFER_SIZE_MAX)
              && old(buffer.used) + |Packed(fmt, args).value| > old(buffer.data.Length)
    ensures ok && old(buffer.used) + |Packed(fmt, args).value| <= old(buffer.data.Length) ==>
              buffer.data == old(buffer.data)
  {
    if |args| > MAX_ARGS || fmt == [] {
      return false;
    }
    ok := PackLoop(buffer, fmt, args, allocs);
  }

  // ---- The size pre-pass ----

  /** What one letter adds to the needed size; None for a letter that is no format. */
  function SizeOf(c: char, a: seq<Value>): Option<nat>
    requires |a| == Arity(c)
  {
    match c
    case 'b' => Some(1)
    case 'w' => Some(2)
    case 'd' => Some(4)
    case 'q' => Some(8)
    case 'S' => if a[0].Str? then Some(4 + |a[0].s|) else None
    case 's' => if a[0].Text? then Some(4 + |CString(a[0].s)|) else None
    case 't' => if a[0].Text? then Some(|CString(a[0].s)|) else None
    case 'P' => if a[0].Size? then Some(a[0].k) else None
    case 'B' => if a[0].Big? then Some(4 + NumBytes(a[0].n) + 1) else None
    case 'F' => if a[1].Size? then Some(4 + a[1].k) else None
    case _ => None
  }

  /** The size of a whole call; None when the arguments do not match the format. */
  function Needed(fmt: string, args: seq<Value>): Option<nat> {
    if fmt == [] then
      if args == [] then Some(0) else None
    else
      var k := Arity(fmt[0]);
      if |args| < k then None
      else
        match (SizeOf(fmt[0], args[..k]), Needed(fmt[1..], args[k..]))
        case (Some(n), Some(rest)) => Some(n + rest)
        case _ => None
  }

  /** Bytes the pre-pass reserves for the sign byte of a 'B' that turns out not to need one. */
  function Spare(fmt: string, args: seq<Value>): nat {
    if fmt == [] || |args| < Arity(fmt[0]) then 0
    else
      (if fmt[0] == 'B' && args[0].Big? && |Mpint(args[0].n)| == NumBytes(args[0].n) then 1 else 0)
      + Spare(fmt[1..], args[Arity(fmt[0])..])
  }

  /** Bytes packed for an 'F' of length zero, which packs like a 'B' but is reserved no content. */
  function Overrun(fmt: string, args: seq<Value>): nat {
    if fmt == [] || |args| < Arity(fmt[0]) then 0
    else
      (if fmt[0] == 'F' && args[0].Big? && args[1] == Size(0) then |Mpint(args[0].n)| else 0)
      + Overrun(fmt[1..], args[Arity(fmt[0])..])
  }

  lemma ToBytesLength(n: nat)
    ensures |Mpint(n)| == NumBytes(n) || |Mpint(n)| == NumBytes(n) + 1
  {
  }

  lemma SizeOfOne(c: char, a: seq<Value>)
    requires |a| == Arity(c) && Encode(c, a).Some?
    ensures SizeOf(c, a).Some?
    ensures
      var spare := if c == 'B' && |Mpint(a[0].n)| == NumBytes(a[0].n) then 1 else 0;
      var over := if c == 'F' && a[1] == Size(0) then |Mpint(a[0].n)| else 0;
      SizeOf(c, a).value + over == |Encode(c, a).value| + spare
  {
    if c == 'B' || c == 'F' {
      ToBytesLength(a[0].n);
    }
  }

  /** The size computed by the pre-pass against the bytes the packing pass emits, for every call that packs. */
  lemma {:induction false} SizeAgrees(fmt: string, args: seq<Value>)
    requires Packed(fmt, args).Some?
    ensures Needed(fmt, args).Some?
    ensures Needed(fmt, args).value + Overrun(fmt, args) == |Packed(fmt, args).value| + Spare(fmt, args)
  {
    if fmt != [] {
      var k := Arity(fmt[0]);
      SizeOfOne(fmt[0], args[..k]);
      SizeAgrees(fmt[1..], args[k..]);
      assert args[..k][0] == args[0];
    }
  }

  /** The call packs, and both its reserved and its packed size stay below the limit. */
  ghost predicate PacksWithin(fmt: string, args: seq<Value>, limit: nat) {
    && Packed(fmt, args).Some? && |Packed(fmt, args).value| < limit
    && Needed(fmt, args).Some? && Needed(fmt, args).value < limit
  }

  ghost predicate NoEmptyField(fmt: string, args: seq<Value>) {
    Overrun(fmt, args) == 0
  }

  /** An 'F' of length zero is reserved four bytes and packs five. */
  lemma EmptyFieldOverruns()
    ensures Packed("F", [Big(7), Size(0)]) == Some([0, 0, 0, 1, 7])
    ensures Needed("F", [Big(7), Size(0)]) == Some(4)
  {
    var a := [Big(7), Size(0)];
    assert NumBits(7) == 3;
    OneByte(7);
    assert Mpint(7) == [7];
    assert BignumString(7, 0) == Some([7]);
    FourBytes(1);
    assert LengthOf(Some([7])) == Some([0, 0, 0, 1] + [7]);
    assert [0, 0, 0, 1] + [7] == [0, 0, 0, 1, 7];
    assert Encode('F', a) == Some([0, 0, 0, 1, 7]);
    assert a[..2] == a && a[2..] == [] && "F"[1..] == [];
    assert Packed([], []) == Some([]);
    assert [0, 0, 0, 1, 7] + [] == [0, 0, 0, 1, 7];
  }

  lemma FourBytes(n: nat)
    requires n < 256
    ensures ToBytes(n, 4) == [0, 0, 0, n]
  {
    assert ToBytes(0, 0) == [] && ToBytes(0, 1) == [0] && ToBytes(0, 2) == [0, 0] && ToBytes(0, 3) == [0, 0, 0];
  }

  /**
   * The counting loop of ssh_buffer_pack_allocate_va. A letter that is no format ends
   * it, but the call still succeeds if by then all arguments were counted.
   */
  method CountSize(fmt: string, args: seq<Value>) returns (size: Option<nat>)
    ensures Needed(fmt, args).Some? && Needed(fmt, args).value < TWO_64 ==> size == Needed(fmt, args)
    ensures size.Some? ==> size.value < TWO_64
  {
    var p: nat, count: nat, sum: nat := 0, 0, 0;
    ghost var total := Needed(fmt, args);
    assert fmt[0..] == fmt && args[0..] == args;
    while p < |fmt|
      invariant p <= |fmt| && count <= |args| && sum < TWO_64
      invariant total.Some? ==> Needed(fmt[p..], args[count..]).Some?
      invariant total.Some? && total.value < TWO_64 ==> sum + Needed(fmt[p..], args[count..]).value == total.value
    {
      var k := Arity(fmt[p]);
      NeededStep(fmt, args, p, count);
      if count + k > |args| {
        return None;
      }
      var n := SizeOf(fmt[p], args[count..count + k]);
      if n.None? {
        break;
      }
      sum := Wrap64(sum + n.value);
      count := count + k;
      p := p + 1;
    }
    size := if count == |args| then Some(sum) else None;
  }

  /** ssh_buffer_pack_allocate_va: the sum is a size_t, the request a uint32_t. */
  method PackAllocate(buffer: SshBuffer, fmt: string, args: seq<Value>, allocOk: bool) returns (ok: bool)
    requires buffer.Valid()
    modifies buffer, buffer.data
    ensures buffer.Valid() && buffer.View() == old(buffer.View())
    ensures fresh(buffer.data) || buffer.data == old(buffer.data)
    ensures old(buffer.used) == 0 ==> buffer.used == 0
    ensures Needed(fmt, args).Some? && Needed(fmt, args).value < TWO_32 ==>
              && (ok <==> Needed(fmt, args).value <= old(buffer.data.Length)
                          || (allocOk && Needed(fmt, args).value < BUFFER_SIZE_MAX))
              && (ok ==> Needed(fmt, args).value <= buffer.data.Length)
  {
    var size := CountSize(fmt, args);
    if size.None? {
      return false;
    }
    ok := buffer.AllocateSize(Wrap32(size.value), allocOk);
  }

  lemma NeededStep(fmt: string, args: seq<Value>, p: nat, count: nat)
    requires p < |fmt| && count <= |args|
    ensures
      var k := Arity(fmt[p]);
      var whole := Needed(fmt[p..], args[count..]);
      if count + k > |args| then whole == None
      else
        match (SizeOf(fmt[p], args[count..count + k]), Needed(fmt[p + 1..], args[count + k..]))
        case (Some(n), Some(rest)) => whole == Some(n + rest)
        case _ => whole == None
  {
    var k := Arity(fmt[p]);
    assert fmt[p..][0] == fmt[p] && fmt[p..][1..] == fmt[p + 1..];
    if count + k <= |args| {
      assert args[count..][..k] == args[count..count + k] && args[count..][k..] == args[count + k..];
    }
  }

  /**
   * _ssh_buffer_pack. Into an empty buffer, without an 'F' of length zero, the packing
   * pass never needs more room: it fills the array the pre-pass left, so that only the
   * pre-pass and the strings of bignums can run out of memory.
   */
  method Pack(buffer: SshBuffer, fmt: string, args: seq<Value>, reserveOk: bool, allocs: seq<Memory>)
    returns (ok: bool, ghost reserved: array<byte>)
    requires buffer.Valid() && |allocs| == |fmt|
    modifies buffer, buffer.data
    ensures buffer.Valid() && old(buffer.View()) <= buffer.View()
    ensures ok ==> fmt != [] && |args| <= MAX_ARGS && Packed(fmt, args).Some?
                   && buffer.View() == old(buffer.View()) + Packed(fmt, args).value
    ensures ok ==> !AnyStringLost(fmt, allocs)
    ensures (&& fmt != [] && |args| <= MAX_ARGS && reserveOk && !AnyStringLost(fmt, allocs)
             && PacksWithin(fmt, args, BUFFER_SIZE_MAX - old(|buffer.View()|))
             && (!AnyScarce(allocs) || (old(buffer.used) == 0 && NoEmptyField(fmt, args)))) ==>
              ok
    ensures ok && old(buffer.used) == 0 && NoEmptyField(fmt, args) && PacksWithin(fmt, args, TWO_32) ==>
              buffer.data == reserved
  {
    reserved := buffer.data;
    if |args| > MAX_ARGS {
      return false, reserved;
    }
    if Packed(fmt, args).Some? {
      SizeAgrees(fmt, args);
    }
    ok := PackAllocate(buffer, fmt, args, reserveOk);
    if !ok {
      return;
    }
    reserved := buffer.data;
    ok := PackVa(buffer, fmt, args, allocs);
  }
}
