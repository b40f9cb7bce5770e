/**
 * The growable byte buffer of buffer.c: an array with a read cursor, shifted,
 * reallocated to powers of two and edited in place. Each operation is proved
 * against its meaning on the readable bytes, `View()`.
 *
 * Allocation may fail at any call; `allocOk` says whether it succeeds there.
 */
module SshBuffers {
  import opened Octets

  const BUFFER_SIZE_MAX: nat := 0x1000_0000
  const REINIT_SIZE: nat := 65536

  // ---- Powers of two ----

  function Exp2(k: nat): (r: nat)
    ensures r > 0
  {
    if k == 0 then 1 else 2 * Exp2(k - 1)
  }

  ghost predicate PowerOfTwo(n: nat) {
    exists k: nat :: n == Exp2(k)
  }

  lemma {:induction false} ExpGrows(j: nat, k: nat)
    requires j < k
    ensures 2 * Exp2(j) <= Exp2(k)
  {
    if j + 1 < k {
      ExpGrows(j, k - 1);
    }
  }

  /** No power of two lies strictly between a power of two and its double. */
  lemma PowersApart(a: nat, b: nat)
    requires PowerOfTwo(a) && PowerOfTwo(b) && a <= b < 2 * a
    ensures a == b
  {
    var j: nat :| a == Exp2(j);
    var k: nat :| b == Exp2(k);
    if j < k {
      ExpGrows(j, k);
    } else if k < j {
      ExpGrows(k, j);
    }
  }

  lemma Doubled(n: nat)
    requires PowerOfTwo(n)
    ensures PowerOfTwo(2 * n)
  {
    var k: nat :| n == Exp2(k);
    assert 2 * n == Exp2(k + 1);
  }

  lemma Powers()
    ensures PowerOfTwo(1) && PowerOfTwo(64) && PowerOfTwo(REINIT_SIZE)
    ensures PowerOfTwo(BUFFER_SIZE_MAX) && PowerOfTwo(TWO_32 / 2)
  {
    assert Exp2(0) == 1 && Exp2(6) == 64 && Exp2(16) == REINIT_SIZE;
    assert Exp2(28) == BUFFER_SIZE_MAX && Exp2(31) == TWO_32 / 2;
  }

  /** The smallest power of two above `needed`, in 32-bit arithmetic; 0 when there is none. */
  method SmallestPowerAbove(needed: nat) returns (smallest: nat)
    requires needed < TWO_32
    ensures smallest == 0 <==> needed >= TWO_32 / 2
    ensures smallest != 0 ==> PowerOfTwo(smallest) && needed < smallest && (smallest == 1 || smallest <= 2 * needed)
    ensures smallest != 0 ==> (smallest <= BUFFER_SIZE_MAX <==> needed < BUFFER_SIZE_MAX)
  {
    Powers();
    smallest := 1;
    while smallest <= needed
      invariant smallest == 0 ==> needed >= TWO_32 / 2
      invariant smallest != 0 ==> PowerOfTwo(smallest) && smallest <= TWO_32 / 2
      invariant smallest > 1 ==> smallest <= 2 * needed
      decreases if smallest == 0 then 0 else TWO_32 - smallest
    {
      if smallest == 0 {
        return;
      }
      if smallest > TWO_32 / 4 {
        PowersApart(smallest, TWO_32 / 2);
      }
      Doubled(smallest);
      smallest := Wrap32(2 * smallest);
    }
    if smallest > BUFFER_SIZE_MAX && needed < BUFFER_SIZE_MAX {
      PowersApart(BUFFER_SIZE_MAX, smallest);
    }
  }

  // ---- Big-endian length field of an SSH string (section 5 of RFC 4251) ----

  function BE32(b: seq<byte>): nat
    requires |b| == 4
  {
    0x100_0000 * b[0] as nat + 0x1_0000 * b[1] as nat + 0x100 * b[2] as nat + b[3] as nat
  }

  /**
   * Reading a length-prefixed string off the front of `v`: the string, if it is all
   * there, and what remains. A length that cannot be satisfied still consumes its
   * four bytes.
   */
  function TakeString(v: seq<byte>): (Option<seq<byte>>, seq<byte>) {
    if |v| < 4 then (None, v)
    else
      var length := BE32(v[..4]);
      var rest := v[4..];
      if length > |rest| then (None, rest) else (Some(rest[..length]), rest[length..])
  }

  lemma SliceSplit(s: seq<byte>, lo: nat, mid: nat, hi: nat)
    requires lo <= mid <= hi <= |s|
    ensures s[lo..hi] == s[lo..mid] + s[mid..hi]
    ensures s[lo..hi][..mid - lo] == s[lo..mid]
  {
  }

  class SshBuffer {
    var data: array<byte>
    var used: nat
    var pos: nat

    /** Everything buffer_verify checks, except `pos <= used`. */
    ghost predicate Shaped()
      reads this
    {
      used <= data.Length <= BUFFER_SIZE_MAX && PowerOfTwo(data.Length)
    }

    ghost predicate Valid()
      reads this
    {
      Shaped() && pos <= used
    }

    /** The readable bytes. */
    ghost function View(): (v: seq<byte>)
      requires Valid()
      reads this, data
      ensures |v| == used - pos
    {
      data[pos..used]
    }

    constructor ()
      ensures Valid() && fresh(data)
      ensures View() == [] && pos == 0 && data.Length == 64
    {
      data := new byte[64];
      used, pos := 0, 0;
      new;
      Powers();
    }

    method Realloc(needed: nat, allocOk: bool) returns (ok: bool)
      requires Shaped() && used <= needed < TWO_32
      modifies this`data
      ensures Shaped()
      ensures ok <==> allocOk && needed < BUFFER_SIZE_MAX
      ensures ok ==> fresh(data) && needed < data.Length && (data.Length == 1 || data.Length <= 2 * needed)
      ensures ok ==> data[..used] == old(data[..used])
      ensures !ok ==> data == old(data)
    {
      var smallest := SmallestPowerAbove(needed);
      if smallest == 0 || smallest > BUFFER_SIZE_MAX || !allocOk {
        return false;
      }
      var larger := new byte[smallest];
      forall i | 0 <= i < used {
        larger[i] := data[i];
      }
      data := larger;
      return true;
    }

    method Shift()
      requires Valid()
      modifies this`used, this`pos, data
      ensures Valid() && pos == 0 && View() == old(View())
    {
      if pos == 0 {
        return;
      }
      forall i | 0 <= i < used - pos {
        data[i] := data[pos + i];
      }
      used := used - pos;
      pos := 0;
      assert forall i :: 0 <= i < used ==> data[i] == old(data[pos + i]);
    }

    method Reinit(allocOk: bool) returns (ok: bool)
      requires Valid()
      modifies this
      ensures Valid() && View() == [] && pos == 0
      ensures ok <==> old(data.Length) <= REINIT_SIZE || allocOk
      ensures ok ==> data.Length <= REINIT_SIZE
      ensures fresh(data) || data == old(data)
    {
      used, pos := 0, 0;
      ok := true;
      if data.Length > REINIT_SIZE {
        ok := Realloc(REINIT_SIZE - 1, allocOk);
        if ok {
          Powers();
          PowersApart(REINIT_SIZE, data.Length);
        }
      }
    }

    /** Make room for `len` more bytes at the tail: the common head of add_data and allocate. */
    method MakeRoom(len: nat, allocOk: bool) returns (ok: bool)
      requires Valid() && len < TWO_32
      modifies this, data
      ensures Valid() && View() == old(View())
      ensures ok ==> used + len <= data.Length
      ensures ok <==> old(used) + len <= old(data.Length) || (allocOk && |old(View())| + len < BUFFER_SIZE_MAX)
      ensures old(used) + len <= old(data.Length) ==> data == old(data) && pos == old(pos)
      ensures old(pos) == 0 ==> pos == 0
      ensures fresh(data) || data == old(data)
    {
      if Wrap32(used + len) < len {
        return false;
      }
      if data.Length < used + len {
        ok := Enlarge(len, allocOk);
        return;
      }
      return true;
    }

    method Enlarge(len: nat, allocOk: bool) returns (ok: bool)
      requires Valid() && used + len < TWO_32
      requires data.Length < used + len
      modifies this, data
      ensures Valid() && View() == old(View())
      ensures ok ==> used + len <= data.Length
      ensures ok <==> allocOk && |old(View())| + len < BUFFER_SIZE_MAX
      ensures pos == 0
      ensures fresh(data) || data == old(data)
    {
      if pos > 0 {
        Shift();
      }
      assert View() == data[..used];
      ok := Realloc(used + len, allocOk);
      assert View() == data[..used];
    }

    method AddData(bytes: seq<byte>, allocOk: bool) returns (ok: bool)
      requires Valid() && |bytes| < TWO_32
      modifies this, data
      ensures Valid()
      ensures ok <==> old(used) + |bytes| <= old(data.Length) || (allocOk && |old(View())| + |bytes| < BUFFER_SIZE_MAX)
      ensures View() == if ok then old(View()) + bytes else old(View())
      ensures old(used) + |bytes| <= old(data.Length) ==> data == old(data) && pos == old(pos)
      ensures old(pos) == 0 ==> pos == 0
      ensures fresh(data) || data == old(data)
    {
      ok := MakeRoom(|bytes|, allocOk);
      if ok {
        CopyToTail(bytes);
        used := used + |bytes|;
      }
    }

    /** The memcpy behind the last used byte. */
    method CopyToTail(bytes: seq<byte>)
      requires Valid() && used + |bytes| <= data.Length
      modifies data
      ensures data[pos..used + |bytes|] == old(data[pos..used]) + bytes
    {
      forall i | 0 <= i < |bytes| {
        data[used + i] := bytes[i];
      }
      assert data[pos..used] == old(data[pos..used]);
      assert data[used..used + |bytes|] == bytes;
    }

    /** Reserve `len` bytes at the tail for the caller to fill; their content is whatever was there. */
    method Allocate(len: nat, allocOk: bool) returns (at: Option<nat>)
      requires Valid() && len < TWO_32
      modifies this, data
      ensures Valid()
      ensures at.Some? <==> old(used) + len <= old(data.Length) || (allocOk && |old(View())| + len < BUFFER_SIZE_MAX)
      ensures at.None? ==> View() == old(View())
      ensures at.Some? ==>
                |View()| == |old(View())| + len && View()[..|View()| - len] == old(View()) && at.value == used - len
    {
      var ok := MakeRoom(len, allocOk);
      if !ok {
        return None;
      }
      at := Some(used);
      used := used + len;
      SliceSplit(data[..], pos, used - len, used);
    }

    method AllocateSize(len: nat, allocOk: bool) returns (ok: bool)
      requires Valid() && len < TWO_32
      modifies this, data
      ensures Valid() && View() == old(View())
      ensures ok <==> len <= old(data.Length) || (allocOk && len < BUFFER_SIZE_MAX)
      ensures ok ==> len <= data.Length
      ensures old(used) == 0 ==> used == 0
      ensures fresh(data) || data == old(data)
    {
      ok := true;
      if data.Length < len {
        if pos > 0 {
          Shift();
        }
        ok := Realloc(len, allocOk);
        assert View() == data[..used];
      }
    }

    method PrependData(bytes: seq<byte>, allocOk: bool) returns (ok: bool)
      requires Valid() && |bytes| < TWO_32
      modifies this, data
      ensures Valid()
      ensures ok <==> |bytes| <= old(pos) || |old(View())| + |bytes| <= old(data.Length)
                      || (allocOk && |old(View())| + |bytes| < BUFFER_SIZE_MAX)
      ensures View() == if ok then bytes + old(View()) else old(View())
    {
      var len := |bytes|;
      if len <= pos {
        PrependInGap(bytes);
        return true;
      }
      if Wrap32(used - pos + len) < len {
        return false;
      }
      if data.Length < used - pos + len {
        ok := Realloc(used - pos + len, allocOk);
        if !ok {
          return;
        }
      }
      assert View() == old(View());
      PrependMoving(bytes);
      return true;
    }

    /** There is enough already consumed space before the cursor. */
    method PrependInGap(bytes: seq<byte>)
      requires Valid() && |bytes| <= pos
      modifies this`pos, data
      ensures Valid() && View() == bytes + old(View())
    {
      var len := |bytes|;
      forall i | 0 <= i < len {
        data[pos - len + i] := bytes[i];
      }
      pos := pos - len;
      assert forall i :: 0 <= i < len ==> data[pos + i] == bytes[i];
      assert data[pos..pos + len] == bytes;
      assert data[pos + len..used] == old(View());
      assert View() == data[pos..pos + len] + data[pos + len..used];
    }

    /** Move the readable bytes to the right and copy `bytes` before them. */
    method PrependMoving(bytes: seq<byte>)
      requires Valid() && pos < |bytes| && used - pos + |bytes| <= data.Length
      modifies this`pos, this`used, data
      ensures Valid() && View() == bytes + old(View())
    {
      var len := |bytes|;
      forall i | len <= i < len + (used - pos) {
        data[i] := data[pos + i - len];
      }
      assert data[len..len + (used - pos)] == old(View());
      forall i | 0 <= i < len {
        data[i] := bytes[i];
      }
      used := used + len - pos;
      pos := 0;
      assert data[0..len] == bytes;
      assert data[len..used] == old(View());
      assert View() == data[0..len] + data[len..used];
    }

    method PassBytes(len: nat) returns (passed: nat)
      requires Valid() && len < TWO_32
      modifies this`pos, this`used
      ensures Valid()
      ensures passed == if len <= |old(View())| then len else 0
      ensures View() == old(View())[passed..]
    {
      if Wrap32(pos + len) < len || used < Wrap32(pos + len) {
        return 0;
      }
      pos := pos + len;
      if pos == used {
        pos, used := 0, 0;
      }
      return len;
    }

    /**
     * Only `used` is compared with `len`, not the readable length: cutting more than
     * is readable leaves the read cursor behind the end, exactly when
     * `|View()| < len <= used`.
     */
    method PassBytesEnd(len: nat) returns (cut: nat)
      requires Valid() && len < TWO_32
      modifies this`used
      ensures Shaped()
      ensures cut == if len <= old(used) then len else 0
      ensures Valid() <==> (len <= |old(View())| || len > old(used))
      ensures len <= |old(View())| ==> View() == old(View())[..|old(View())| - len]
      ensures len > old(used) ==> View() == old(View())
    {
      if used < len {
        return 0;
      }
      used := used - len;
      return len;
    }

    method GetData(len: nat) returns (got: Option<seq<byte>>)
      requires Valid() && len < TWO_64
      modifies this`pos
      ensures Valid()
      ensures got == if len <= |old(View())| then Some(old(View())[..len]) else None
      ensures View() == if got.Some? then old(View())[len..] else old(View())
    {
      if Wrap64(pos + len) < len || Wrap64(pos + len) > used {
        return None;
      }
      got := Some(data[pos..pos + len]);
      assert got.value == View()[..len];
      pos := pos + len;
    }

    /** ssh_buffer_get_ssh_string: the length is consumed even when there is no memory for the string. */
    method GetSshString(allocOk: bool) returns (got: Option<seq<byte>>)
      requires Valid()
      modifies this`pos
      ensures Valid()
      ensures
        var (s, rest) := TakeString(old(View()));
        if s.Some? && !allocOk then got == None && View() == old(View())[4..] else (got, View()) == (s, rest)
    {
      var length := GetData(4);
      if length.None? {
        return None;
      }
      var n := BE32(length.value);
      if n > used - pos || !allocOk {
        return None;
      }
      got := GetData(n);
    }

    method Get() returns (bytes: seq<byte>)
      requires Valid()
      ensures bytes == View()
    {
      bytes := data[pos..used];
    }
  }
}
