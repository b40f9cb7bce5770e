/**
 * The server banner (callback_receive_banner of client.c, driven by the data loop of
 * socket.c; section 4.2 of RFC 4253). Bytes the callback does not consume are shown
 * to it again, with every CR it passed overwritten by 0; the banner found does not
 * depend on how the stream was cut into reads.
 */
module Banner {
  import opened Octets
  import opened SshBuffers

  const NUL: byte := 0
  const SSH_DASH: seq<byte> := [83, 83, 72, 45]
  const LAST_INDEX: nat := 255

  // ---- What a stream of bytes amounts to ----

  datatype Outcome = Waiting | Received(banner: seq<byte>, rest: seq<byte>) | TooLarge

  /** The text before the first CR or 0. */
  function Cut(line: seq<byte>): seq<byte> {
    if line == [] || line[0] == RETURN || line[0] == NUL then [] else [line[0]] + Cut(line[1..])
  }

  predicate IsBanner(line: seq<byte>) {
    |line| >= 4 && line[..4] == SSH_DASH
  }

  /** The first line that starts with "SSH-", unless a line before its end has 257 bytes without a newline. */
  function Find(s: seq<byte>): Outcome
    decreases |s|
  {
    var n := FirstNewline(s);
    if n > LAST_INDEX + 1 then TooLarge
    else if n == |s| then Waiting
    else if IsBanner(s[..n]) then Received(Cut(s[..n]), s[n + 1..])
    else Find(s[n + 1..])
  }

  /** The edit a scan leaves behind. */
  function Edit(b: byte): byte {
    if b == RETURN then NUL else b
  }

  function Edited(s: seq<byte>): seq<byte> {
    seq(|s|, i requires 0 <= i < |s| => Edit(s[i]))
  }

  lemma {:induction false} FirstNewlineIs(s: seq<byte>, n: nat)
    requires n <= |s| && NEWLINE !in s[..n] && (n < |s| ==> s[n] == NEWLINE)
    ensures FirstNewline(s) == n
  {
    if n > 0 {
      assert s[0] == s[..n][0] && s[1..][..n - 1] == s[..n][1..];
      FirstNewlineIs(s[1..], n - 1);
    }
  }

  lemma {:induction false} NoNewlineBefore(s: seq<byte>, n: nat)
    requires n <= |s| && NEWLINE !in s[..n]
    ensures FirstNewline(s) >= n
  {
    if n > 0 {
      assert s[0] == s[..n][0] && s[1..][..n - 1] == s[..n][1..];
      NoNewlineBefore(s[1..], n - 1);
    }
  }

  lemma {:induction false} CutEdited(line: seq<byte>)
    ensures Cut(Edited(line)) == Cut(line)
    ensures IsBanner(Edited(line)) <==> IsBanner(line)
  {
    CutEditedText(line);
    if |line| >= 4 {
      assert forall i :: 0 <= i < 4 ==> SSH_DASH[i] != NUL && SSH_DASH[i] != RETURN;
      assert IsBanner(Edited(line)) <==> forall i :: 0 <= i < 4 ==> Edit(line[i]) == SSH_DASH[i];
    }
  }

  lemma {:induction false} CutEditedText(line: seq<byte>)
    ensures Cut(Edited(line)) == Cut(line)
  {
    if line != [] {
      CutEditedText(line[1..]);
      assert Edited(line)[1..] == Edited(line[1..]);
    }
  }

  /** The edits made on an incomplete line do not change what is found once more bytes arrive. */
  lemma EditsDoNotMatter(line: seq<byte>, more: seq<byte>)
    requires NEWLINE !in line
    ensures Find(Edited(line) + more) == Find(line + more)
  {
    var s, t := line + more, Edited(line) + more;
    var n := FirstNewline(s);
    assert s[..|line|] == line;
    NoNewlineBefore(s, |line|);
    assert NEWLINE !in t[..n] by {
      forall i | 0 <= i < n ensures t[i] != NEWLINE {
        assert s[..n][i] != NEWLINE;
      }
    }
    FirstNewlineIs(t, n);
    if n < |s| {
      assert t[n + 1..] == s[n + 1..];
      assert Edited(t[..n]) == Edited(s[..n]);
      CutEdited(t[..n]);
      CutEdited(s[..n]);
    }
  }

  lemma FindDropsLine(s: seq<byte>, more: seq<byte>)
    requires FirstNewline(s) < |s|
    ensures
      var n := FirstNewline(s);
      Find(s + more) == if n > LAST_INDEX + 1 then TooLarge
                        else if IsBanner(s[..n]) then Received(Cut(s[..n]), s[n + 1..] + more)
                        else Find(s[n + 1..] + more)
  {
    var n := FirstNewline(s);
    CutAppended(s, more, n);
    FirstNewlineIs(s + more, n);
  }

  lemma CutAppended(s: seq<byte>, more: seq<byte>, n: nat)
    requires n < |s|
    ensures (s + more)[..n] == s[..n] && (s + more)[n] == s[n] && (s + more)[n + 1..] == s[n + 1..] + more
  {
  }

  /** A line that is already too long stays too long. */
  lemma LongStaysLong(s: seq<byte>, more: seq<byte>)
    requires FirstNewline(s) > LAST_INDEX + 1
    ensures Find(s + more) == TooLarge
  {
    var n := FirstNewline(s);
    assert (s + more)[..n] == s[..n];
    NoNewlineBefore(s + more, n);
  }

  /** Lines of a stream, each with its newline. */
  function Join(lines: seq<seq<byte>>): seq<byte> {
    if lines == [] then [] else lines[0] + [NEWLINE] + Join(lines[1..])
  }

  lemma FindFront(line: seq<byte>, more: seq<byte>)
    requires NEWLINE !in line && |line| <= LAST_INDEX + 1
    ensures Find(line + [NEWLINE] + more) == if IsBanner(line) then Received(Cut(line), more) else Find(more)
  {
    var s := line + [NEWLINE] + more;
    assert s[..|line|] == line && s[|line| + 1..] == more;
    FirstNewlineIs(s, |line|);
  }

  /** Any number of complete lines that are no banner and not too long are skipped. */
  lemma {:induction false} FindSkips(lines: seq<seq<byte>>, s: seq<byte>)
    requires forall l :: l in lines ==> NEWLINE !in l && |l| <= LAST_INDEX + 1 && !IsBanner(l)
    ensures Find(Join(lines) + s) == Find(s)
  {
    if lines == [] {
      assert Join(lines) + s == s;
    } else {
      FindSkips(lines[1..], s);
      FindFront(lines[0], Join(lines[1..]) + s);
      assert Join(lines) + s == lines[0] + [NEWLINE] + (Join(lines[1..]) + s);
    }
  }

  /**
   * What is found after such lines: the banner on a line that is one, an error on 257
   * bytes without a newline, nothing yet on a shorter start of a line.
   */
  lemma {:induction false} FindMeans(lines: seq<seq<byte>>, line: seq<byte>, rest: seq<byte>)
    requires forall l :: l in lines ==> NEWLINE !in l && |l| <= LAST_INDEX + 1 && !IsBanner(l)
    requires NEWLINE !in line
    ensures |line| <= LAST_INDEX + 1 && IsBanner(line) ==>
              Find(Join(lines) + (line + [NEWLINE] + rest)) == Received(Cut(line), rest)
    ensures |line| > LAST_INDEX + 1 ==> Find(Join(lines) + (line + rest)) == TooLarge
    ensures |line| <= LAST_INDEX + 1 ==> Find(Join(lines) + line) == Waiting
  {
    FindSkips(lines, line + [NEWLINE] + rest);
    FindSkips(lines, line + rest);
    FindSkips(lines, line);
    assert (line + rest)[..|line|] == line && line[..|line|] == line;
    NoNewlineBefore(line + rest, |line|);
    FirstNewlineIs(line, |line|);
    if |line| <= LAST_INDEX + 1 {
      FindFront(line, rest);
    }
  }

  /** Lines a server may send first; none is a banner, which starts with "SSH-". */
  ghost predicate OtherLines(lines: seq<seq<byte>>) {
    forall l :: l in lines ==> NEWLINE !in l && |l| <= 256 && !(|l| >= 4 && l[..4] == [83, 83, 72, 45])
  }

  ghost predicate BannerText(text: seq<byte>) {
    |text| >= 4 && text[..4] == [83, 83, 72, 45] && 13 !in text && 0 !in text && NEWLINE !in text
  }

  /** A banner on a line of its own is its whole text. */
  lemma {:induction false} BannerIsText(lines: seq<seq<byte>>, text: seq<byte>, rest: seq<byte>)
    requires OtherLines(lines) && BannerText(text) && |text| <= 256
    ensures Find(Join(lines) + (text + [NEWLINE] + rest)) == Received(text, rest)
  {
    CutStops(text, []);
    assert text + [] == text;
    FindMeans(lines, text, rest);
  }

  /** With a CR or a 0 behind it, and anything up to the newline, it is the text before that. */
  lemma {:induction false} BannerStops(lines: seq<seq<byte>>, text: seq<byte>, stop: byte, more: seq<byte>, rest: seq<byte>)
    requires OtherLines(lines) && BannerText(text) && (stop == 13 || stop == 0)
    requires NEWLINE !in more && |text| + 1 + |more| <= 256
    ensures Find(Join(lines) + (text + ([stop] + more) + [NEWLINE] + rest)) == Received(text, rest)
  {
    CutStops(text, [stop] + more);
    var line := text + ([stop] + more);
    assert line[..4] == text[..4];
    FindMeans(lines, line, rest);
  }

  lemma {:induction false} CutStops(text: seq<byte>, more: seq<byte>)
    requires 13 !in text && 0 !in text && (more == [] || more[0] == 13 || more[0] == 0)
    ensures Cut(text + more) == text
  {
    if text == [] {
      assert text + more == more;
    } else {
      CutStops(text[1..], more);
      assert (text + more)[1..] == text[1..] + more;
    }
  }

  // ---- One call of the callback ----

  datatype State = SocketConnected | BannerReceived | Failed

  /** Shown the bytes `v`, the callback leaves `w` in their place and processes `ret` of them. */
  ghost predicate Scanned(v: seq<byte>, w: seq<byte>, state: State, banner: seq<byte>, ret: nat) {
    var n := FirstNewline(v);
    && |w| == |v|
    && if n > LAST_INDEX + 1 then
         state == Failed && ret == 0
       else if n == |v| then
         state == SocketConnected && ret == 0 && w == Edited(v)
       else
         && ret == n + 1 && w[n + 1..] == v[n + 1..]
         && (if IsBanner(v[..n]) then state == BannerReceived && banner == Cut(v[..n]) else state == SocketConnected)
  }

  /** Nothing is pending but the start of a line. */
  ghost predicate LineStart(pending: seq<byte>) {
    NEWLINE !in pending && |pending| <= LAST_INDEX + 1
  }

  /**
   * With `pending` left over, the reader has found what `Find` finds in `all`, the last
   * part of which, `future`, is still to come.
   */
  ghost predicate FoundIn(all: seq<byte>, state: State, banner: seq<byte>, pending: seq<byte>, future: seq<byte>) {
    match state
    case SocketConnected => LineStart(pending) && Find(all) == Find(pending + future)
    case BannerReceived => Find(all) == Received(banner, pending + future)
    case Failed => Find(all) == TooLarge
  }

  lemma ScanFinds(v: seq<byte>, w: seq<byte>, state: State, banner: seq<byte>, ret: nat, future: seq<byte>)
    requires Scanned(v, w, state, banner, ret)
    ensures ret <= |w|
    ensures ret > 0 && state == SocketConnected ==> Find(v + future) == Find(w[ret..] + future)
    ensures ret == 0 || state != SocketConnected ==> FoundIn(v + future, state, banner, w[ret..], future)
  {
    var n := FirstNewline(v);
    if n > LAST_INDEX + 1 {
      LongStaysLong(v, future);
    } else if n == |v| {
      PartialLine(v, future);
      assert w[0..] == w;
    } else {
      FindDropsLine(v, future);
    }
  }

  lemma PartialLine(v: seq<byte>, future: seq<byte>)
    requires FirstNewline(v) == |v| <= LAST_INDEX + 1
    ensures LineStart(Edited(v)) && Find(v + future) == Find(Edited(v) + future)
  {
    assert v[..|v|] == v;
    EditsDoNotMatter(v, future);
  }

  // ---- The reader ----

  lemma ScannedPart(data: array<byte>, from: nat, i: nat, v: seq<byte>)
    requires i <= |v| && from + |v| <= data.Length
    requires forall k :: 0 <= k < i ==> data[from + k] == Edit(v[k])
    ensures data[from..from + i] == Edited(v[..i])
  {
  }

  lemma UnscannedPart(data: array<byte>, from: nat, i: nat, v: seq<byte>)
    requires i <= |v| && from + |v| <= data.Length
    requires forall k :: i <= k < |v| ==> data[from + k] == v[k]
    ensures data[from..from + |v|][i..] == v[i..]
  {
  }

  class BannerReader {
    var state: State
    var serverBanner: seq<byte>
    const inBuffer: SshBuffer

    constructor ()
      ensures Valid() && fresh(inBuffer) && fresh(inBuffer.data) && state == SocketConnected && inBuffer.View() == []
    {
      state, serverBanner := SocketConnected, [];
      inBuffer := new SshBuffer();
    }

    ghost predicate Valid()
      reads this, inBuffer
    {
      inBuffer.Valid()
    }

    /** What the callback does with a complete line: the C string in the buffer is `line` up to its first 0. */
    method EndLine(line: seq<byte>)
      requires state == SocketConnected
      modifies this`state, this`serverBanner
      ensures if IsBanner(line) then state == BannerReceived && serverBanner == Cut(line) else state == SocketConnected
    {
      if |line| >= 4 && line[..4] == SSH_DASH {
        serverBanner := Cut(line);
        state := BannerReceived;
      }
    }

    /** callback_receive_banner, on `len` bytes of the array from `from` on. */
    method Callback(data: array<byte>, from: nat, len: nat) returns (ret: nat)
      requires state == SocketConnected && from + len <= data.Length
      modifies this`state, this`serverBanner, data
      ensures Scanned(old(data[from..from + len]), data[from..from + len], state, serverBanner, ret)
    {
      ghost var v := data[from..from + len];
      var i := 0;
      while i < len
        invariant 0 <= i <= len && i <= LAST_INDEX + 1
        invariant state == SocketConnected
        invariant NEWLINE !in v[..i]
        invariant forall k :: 0 <= k < i ==> data[from + k] == Edit(v[k])
        invariant forall k :: i <= k < len ==> data[from + k] == v[k]
      {
        if data[from + i] == RETURN {
          data[from + i] := NUL;
        }
        if data[from + i] == NEWLINE {
          FirstNewlineIs(v, i);
          data[from + i] := NUL;
          ScannedPart(data, from, i, v);
          UnscannedPart(data, from, i + 1, v);
          var line := data[from..from + i];
          CutEdited(v[..i]);
          EndLine(line);
          return i + 1;
        }
        if i > LAST_INDEX {
          NoNewlineBefore(v, i + 1);
          state := Failed;
          return 0;
        }
        i := i + 1;
      }
      FirstNewlineIs(v, len);
      ScannedPart(data, from, len, v);
      assert v[..len] == v;
      return 0;
    }

    ghost predicate Found(all: seq<byte>, future: seq<byte>)
      requires Valid()
      reads this, inBuffer, inBuffer.data
    {
      FoundIn(all, state, serverBanner, inBuffer.View(), future)
    }

    /** One turn of the data loop: show everything pending to the callback and drop what it processed. */
    method ShowPending(ghost future: seq<byte>) returns (processed: nat)
      requires Valid() && state == SocketConnected
      modifies this, inBuffer, inBuffer.data
      ensures Valid() && inBuffer.data == old(inBuffer.data)
      ensures processed > 0 && state == SocketConnected ==>
                && Find(old(inBuffer.View()) + future) == Find(inBuffer.View() + future)
                && |inBuffer.View()| < |old(inBuffer.View())|
      ensures processed == 0 || state != SocketConnected ==> Found(old(inBuffer.View()) + future, future)
    {
      ghost var v := inBuffer.View();
      processed := Callback(inBuffer.data, inBuffer.pos, inBuffer.used - inBuffer.pos);
      ScanFinds(v, inBuffer.View(), state, serverBanner, processed, future);
      var _ := inBuffer.PassBytes(processed);
    }

    /** The data loop of ssh_socket_pollcallback for one read of the socket; `future` is what later reads will bring. */
    method Feed(chunk: seq<byte>, ghost future: seq<byte>)
      requires Valid() && state == SocketConnected && LineStart(inBuffer.View())
      requires |chunk| + LAST_INDEX + 1 < BUFFER_SIZE_MAX
      modifies this, inBuffer, inBuffer.data
      ensures Valid() && Found(old(inBuffer.View()) + chunk + future, future)
      ensures fresh(inBuffer.data) || inBuffer.data == old(inBuffer.data)
    {
      var _ := inBuffer.AddData(chunk, true);
      ghost var all := inBuffer.View() + future;
      label added:
      var processed := ShowPending(future);
      while processed > 0 && state == SocketConnected
        invariant Valid() && inBuffer.data == old@added(inBuffer.data)
        invariant processed > 0 && state == SocketConnected ==> Find(all) == Find(inBuffer.View() + future)
        invariant processed == 0 || state != SocketConnected ==> Found(all, future)
        decreases if processed > 0 && state == SocketConnected then 1 + |inBuffer.View()| else 0
      {
        processed := ShowPending(future);
      }
    }
  }

  function Concat(chunks: seq<seq<byte>>): seq<byte> {
    if chunks == [] then [] else chunks[0] + Concat(chunks[1..])
  }

  lemma StartIsWaiting(pending: seq<byte>)
    requires LineStart(pending)
    ensures Find(pending) == Waiting
  {
    FirstNewlineIs(pending, |pending|);
  }

  lemma NextChunk(chunks: seq<seq<byte>>, next: nat, pending: seq<byte>)
    requires next < |chunks|
    ensures pending + Concat(chunks[next..]) == pending + chunks[next] + Concat(chunks[next + 1..])
  {
    assert chunks[next..][1..] == chunks[next + 1..];
  }

  /**
   * The client reading a server's stream in chunks, until the banner is complete or
   * refused: the result is a function of the stream alone, and every byte after the
   * banner is still there for the packet layer, pending or in the chunks not yet read.
   */
  method ReadBanner(chunks: seq<seq<byte>>) returns (state: State, banner: seq<byte>, pending: seq<byte>, next: nat)
    requires forall c :: c in chunks ==> |c| + LAST_INDEX + 1 < BUFFER_SIZE_MAX
    ensures next <= |chunks|
    ensures
      match Find(Concat(chunks))
      case Waiting => state == SocketConnected && next == |chunks|
      case Received(b, rest) => state == BannerReceived && banner == b && pending + Concat(chunks[next..]) == rest
      case TooLarge => state == Failed
  {
    var reader := new BannerReader();
    ghost var all := Concat(chunks);
    next := 0;
    assert chunks[0..] == chunks && [] + all == all;
    while next < |chunks| && reader.state == SocketConnected
      invariant next <= |chunks|
      invariant fresh(reader) && fresh(reader.inBuffer) && fresh(reader.inBuffer.data)
      invariant reader.Valid() && reader.Found(all, Concat(chunks[next..]))
    {
      ghost var future := Concat(chunks[next + 1..]);
      NextChunk(chunks, next, reader.inBuffer.View());
      reader.Feed(chunks[next], future);
      next := next + 1;
    }
    pending := reader.inBuffer.Get();
    state, banner := reader.state, reader.serverBanner;
    if state == SocketConnected {
      StartIsWaiting(pending);
      assert pending + [] == pending;
    }
  }
}
