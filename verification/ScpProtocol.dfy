/**
 * What the reads of SCPEventReader mean on the bytes of the SCP protocol: every response,
 * line, number and ending, accepted or refused, and the header written and read back.
 */
module ScpProtocol {
  import opened Octets
  import opened ScpReader

  // ---- What each read means, on the bytes ----

  /** The error of a read that runs out of output: the status and all of stderr, or that there was no status. */
  ghost predicate IsEndError(e: Error, f: Feed, context: string, utf8: seq<byte> -> string) {
    match f.end
    case Some(status) => e == EndedWithStatus(context, status, utf8(f.stderr))
    case None => e == EndedBeforeData(context)
  }

  predicate Fails<T>(r: Result<T>, e: Error) {
    r.Failed? && r.error == e
  }

  /** Without output every read of at least a byte fails with the end error. */
  lemma NothingToRead(f: Feed, count: nat, context: string, maximumSize: nat, utf8: seq<byte> -> string)
    requires f.pending == [] && count > 0
    ensures
      exists e ::
        && IsEndError(e, f, context, utf8)
        && Fails(ByteOf(f, context, utf8).0, e) && Fails(LineOf(f, context, utf8).0, e)
        && Fails(BytesOf(f, count, context, utf8).0, e) && Fails(AckOf(f, context, utf8).0, e)
    ensures
      exists e :: IsEndError(e, f, "SCP download header", utf8) && Fails(HeaderOf(f, maximumSize, utf8).0, e)
  {
    assert IsEndError(EndError(f, context, utf8), f, context, utf8);
    assert Fails(ByteOf(f, context, utf8).0, EndError(f, context, utf8));
    assert IsEndError(EndError(f, HEADER_CONTEXT, utf8), f, HEADER_CONTEXT, utf8);
    assert Fails(HeaderOf(f, maximumSize, utf8).0, EndError(f, HEADER_CONTEXT, utf8));
  }

  /** A byte is the first one, and `count` bytes are the first `count`, with the rest left; too few are an error. */
  lemma BytesMean(bytes: seq<byte>, f: Feed, more: nat, context: string, utf8: seq<byte> -> string)
    ensures
      var f1 := f.(pending := bytes + f.pending);
      && BytesOf(f1, |bytes|, context, utf8) == (Ok(bytes), f)
      && (|bytes| == 1 ==> ByteOf(f1, context, utf8) == (Ok(bytes[0]), f))
    ensures
      more > |f.pending| ==>
        exists e :: IsEndError(e, f, context, utf8) && Fails(BytesOf(f, more, context, utf8).0, e)
  {
    assert (bytes + f.pending)[..|bytes|] == bytes && (bytes + f.pending)[|bytes|..] == f.pending;
    assert IsEndError(EndError(f, context, utf8), f, context, utf8);
    if more > |f.pending| {
      assert Fails(BytesOf(f, more, context, utf8).0, EndError(f, context, utf8));
    }
  }

  /** The text of a line: its bytes less one final CR. */
  function TextOf(line: seq<byte>, utf8: seq<byte> -> string): string {
    utf8(if line != [] && line[|line| - 1] == 13 then line[..|line| - 1] else line)
  }

  /** A line is the text before the first newline, within 16 KiB; without a newline the end decides. */
  lemma LineMeans(line: seq<byte>, f: Feed, context: string, utf8: seq<byte> -> string)
    requires NEWLINE !in line
    ensures
      var f1 := f.(pending := line + [NEWLINE] + f.pending);
      LineOf(f1, context, utf8)
      == if |line| <= 16384 then (Ok(TextOf(line, utf8)), f) else (Failed(LineTooLong(context)), f1)
    ensures
      var f1 := f.(pending := line);
      if |line| <= 16384 then exists e :: IsEndError(e, f, context, utf8) && Fails(LineOf(f1, context, utf8).0, e)
      else LineOf(f1, context, utf8).0 == Failed(LineTooLong(context))
  {
    LineBack(line, f, context, utf8);
    var f1 := f.(pending := line);
    assert FirstNewline(line) == |line| by {
      NoNewlineIn(line);
    }
    assert IsEndError(EndError(f1, context, utf8), f, context, utf8);
    if |line| <= 16384 {
      assert Fails(LineOf(f1, context, utf8).0, EndError(f1, context, utf8));
    }
  }

  lemma {:induction false} NoNewlineIn(line: seq<byte>)
    requires NEWLINE !in line
    ensures FirstNewline(line) == |line|
  {
    if line != [] {
      NoNewlineIn(line[1..]);
    }
  }

  /** An acknowledgement is a 0; 1 and 2 announce a line that says what failed; any other byte is refused. */
  lemma AckMeans(b: byte, line: seq<byte>, f: Feed, context: string, utf8: seq<byte> -> string)
    requires NEWLINE !in line && |line| <= 16384
    ensures AckOf(f.(pending := [0] + f.pending), context, utf8) == (Ok(()), f)
    ensures
      b == 1 || b == 2 ==>
        AckOf(f.(pending := [b] + (line + [NEWLINE] + f.pending)), context, utf8).0
        == Failed(AckFailed(context, TextOf(line, utf8)))
    ensures b > 2 ==> AckOf(f.(pending := [b] + f.pending), context, utf8).0 == Failed(UnexpectedAck(context, b))
  {
    var tail := line + [NEWLINE] + f.pending;
    assert ([0] + f.pending)[1..] == f.pending && ([b] + f.pending)[1..] == f.pending && ([b] + tail)[1..] == tail;
    LineMeans(line, f, context, utf8);
  }

  /** A failure whose line is too long, or not ended, is reported as that. */
  lemma AckWithoutLine(b: byte, line: seq<byte>, f: Feed, context: string, utf8: seq<byte> -> string)
    requires (b == 1 || b == 2) && NEWLINE !in line
    ensures
      var r := AckOf(f.(pending := [b] + line), context, utf8).0;
      if |line| > 16384 then r == Failed(LineTooLong(context))
      else exists e :: IsEndError(e, f, context, utf8) && Fails(r, e)
  {
    assert ([b] + line)[1..] == line;
    LineMeans(line, f, context, utf8);
    if |line| <= 16384 {
      var e :| IsEndError(e, f, context, utf8) && Fails(LineOf(f.(pending := line), context, utf8).0, e);
      assert Fails(AckOf(f.(pending := [b] + line), context, utf8).0, e);
    }
  }

  /** The command must have ended with status 0 and no output left; each other end has its own error. */
  lemma CloseMeans(f: Feed, context: string, utf8: seq<byte> -> string)
    ensures
      var r := ClosedOf(f, context, utf8);
      && (r == Ok(()) <==> f.end == Some(0) && f.pending == [])
      && (r == Failed(NoCloseStatus(context)) <==> f.end == None)
      && (r == Failed(TrailingData(context)) <==> f.end == Some(0) && f.pending != [])
      && (f.end.Some? && f.end.value != 0 ==>
            r == Failed(ExitedWithStatus(context, f.end.value, utf8(f.stderr))))
  {
  }

  /** The header of a download: a failure with its message, any other response than "C", or the parsed line. */
  lemma HeaderMeans(b: byte, line: seq<byte>, f: Feed, maximumSize: nat, utf8: seq<byte> -> string)
    requires NEWLINE !in line && |line| <= 16384
    ensures
      var r := HeaderOf(f.(pending := [b] + (line + [NEWLINE] + f.pending)), maximumSize, utf8);
      if b == 1 || b == 2 then r.0 == Failed(DownloadFailed(TextOf(line, utf8)))
      else if b != 67 then r.0 == Failed(UnsupportedResponse(b))
      else r == (ParseHeader(TextOf(line, utf8), maximumSize), f)
    ensures b != 1 && b != 2 && b != 67 ==>
              HeaderOf(f.(pending := [b] + f.pending), maximumSize, utf8).0 == Failed(UnsupportedResponse(b))
  {
    var tail := line + [NEWLINE] + f.pending;
    assert ([b] + tail)[1..] == tail && ([b] + f.pending)[1..] == f.pending;
    LineMeans(line, f, HEADER_CONTEXT, utf8);
  }

  /** A header line that is too long or not ended is an error whatever it announces. */
  lemma HeaderWithoutLine(b: byte, line: seq<byte>, f: Feed, maximumSize: nat, utf8: seq<byte> -> string)
    requires (b == 1 || b == 2 || b == 67) && NEWLINE !in line
    ensures
      var r := HeaderOf(f.(pending := [b] + line), maximumSize, utf8).0;
      if |line| > 16384 then r == Failed(LineTooLong("SCP download header"))
      else exists e :: IsEndError(e, f, "SCP download header", utf8) && Fails(r, e)
  {
    assert ([b] + line)[1..] == line;
    LineMeans(line, f, HEADER_CONTEXT, utf8);
    if |line| <= 16384 {
      var e :| IsEndError(e, f, HEADER_CONTEXT, utf8) && Fails(LineOf(f.(pending := line), HEADER_CONTEXT, utf8).0, e);
      assert Fails(HeaderOf(f.(pending := [b] + line), maximumSize, utf8).0, e);
    }
  }

  /** A line with fewer than two spaces, or no 64-bit number between them, is malformed; a size too big is refused. */
  lemma ParseMeans(permissions: string, size: string, filename: string, maximumSize: nat)
    requires ' ' !in permissions && ' ' !in size
    ensures
      var r := ParseHeader(permissions + " " + (size + " " + filename), maximumSize);
      var n := ParseUInt64(size);
      if n.None? then r == Failed(MalformedHeader)
      else if n.value > maximumSize then r == Failed(SizeExceeds(n.value, maximumSize))
      else r == Ok(FileHeader(permissions, n.value, filename))
    ensures ParseHeader(permissions, maximumSize) == Failed(MalformedHeader)
    ensures ParseHeader(permissions + " " + size, maximumSize) == Failed(MalformedHeader)
  {
    SplitBack(permissions, size, filename);
    NoSpace(permissions);
    NoSpace(size);
    IndexOfSpace(permissions, size);
    assert (permissions + " " + size)[|permissions| + 1..] == size;
  }

  lemma NoSpace(s: string)
    requires ' ' !in s
    ensures IndexOf(s, ' ') == |s|
  {
  }

  /** A number is digits, with an optional sign; only 0 may be negative, and 2^64 is too much. */
  lemma {:induction false} NumberMeans(digits: string)
    requires digits != [] && (forall c :: c in digits ==> '0' <= c <= '9')
    ensures Digits(digits).Some?
    ensures
      var n := Digits(digits).value;
      && ParseUInt64(digits) == (if n < 0x1_0000_0000_0000_0000 then Some(n) else None)
      && ParseUInt64("+" + digits) == ParseUInt64(digits)
      && ParseUInt64("-" + digits) == (if n == 0 then Some(0) else None)
      && Digits("0" + digits) == Digits(digits)
  {
    OnlyDigits(digits);
    assert ("+" + digits)[1..] == digits && ("-" + digits)[1..] == digits;
    assert digits[0] in digits;
    LeadingZero(digits);
  }

  /** Nothing else is a number. */
  lemma NoNumber(s: string)
    requires s == [] || s == "+" || s == "-" || exists i :: (if s[0] == '+' || s[0] == '-' then 1 else 0) <= i < |s|
                                                         && !('0' <= s[i] <= '9')
    ensures ParseUInt64(s) == None
  {
    if |s| > 0 {
      var digits := if s[0] == '+' || s[0] == '-' then s[1..] else s;
      if digits != [] {
        var i :| (if s[0] == '+' || s[0] == '-' then 1 else 0) <= i < |s| && !('0' <= s[i] <= '9');
        assert s[i] in digits;
        OnlyDigits(digits);
      }
    }
  }

  lemma {:induction false} OnlyDigits(s: string)
    ensures Digits(s).Some? <==> forall c :: c in s ==> '0' <= c <= '9'
  {
    if s != [] {
      var front, last := s[..|s| - 1], s[|s| - 1];
      OnlyDigits(front);
      assert s == front + [last];
      assert last in s && forall c :: c in s <==> c in front || c == last;
    }
  }

  lemma {:induction false} LeadingZero(s: string)
    requires Digits(s).Some?
    ensures Digits("0" + s) == Digits(s)
  {
    if s == [] {
      assert ("0" + s)[..0] == [];
    } else {
      LeadingZero(s[..|s| - 1]);
      assert ("0" + s)[..|s|] == "0" + s[..|s| - 1];
    }
  }

  // ---- The header line, written and read back ----

  function HeaderText(h: FileHeader): string {
    h.permissions + " " + (Decimal(h.size) + " " + h.filename)
  }

  /** `bytes` are the encoding of `line`; as in UTF-8, a final CR is a byte of its own. */
  ghost predicate Encodes(bytes: seq<byte>, line: string, utf8: seq<byte> -> string) {
    && utf8(bytes) == line
    && (EndsInReturn(bytes) ==> utf8(StripReturn(bytes)) + "\r" == line)
  }

  predicate EndsInReturn(bytes: seq<byte>) {
    bytes != [] && bytes[|bytes| - 1] == RETURN
  }

  lemma {:induction false} NewlineBehind(bytes: seq<byte>, rest: seq<byte>)
    requires NEWLINE !in bytes
    ensures FirstNewline(bytes + [NEWLINE] + rest) == |bytes|
  {
    if bytes != [] {
      NewlineBehind(bytes[1..], rest);
      assert (bytes + [NEWLINE] + rest)[1..] == bytes[1..] + [NEWLINE] + rest;
    }
  }

  lemma LineBack(bytes: seq<byte>, f: Feed, context: string, utf8: seq<byte> -> string)
    requires NEWLINE !in bytes
    ensures
      var f1 := f.(pending := bytes + [NEWLINE] + f.pending);
      if |bytes| > MAX_LINE then LineOf(f1, context, utf8) == (Failed(LineTooLong(context)), f1)
      else LineOf(f1, context, utf8) == (Ok(utf8(StripReturn(bytes))), f)
  {
    var pending := bytes + [NEWLINE] + f.pending;
    NewlineBehind(bytes, f.pending);
    assert pending[..|bytes|] == bytes && pending[|bytes| + 1..] == f.pending;
  }

  /** A header whose filename lost its final CR is another one. */
  lemma WithoutReturn(h: FileHeader, text: string, maximumSize: nat)
    requires ' ' !in h.permissions && h.size < TWO_64 && text + "\r" == HeaderText(h)
    ensures ParseHeader(text, maximumSize) != Ok(h)
  {
    var line := HeaderText(h);
    assert line[|line| - 1] == '\r';
    if h.filename != [] {
      var name := h.filename[..|h.filename| - 1];
      assert h.filename == name + [h.filename[|name|]];
      assert HeaderText(h.(filename := name)) + [h.filename[|name|]] == line;
      assert text == line[..|line| - 1] == HeaderText(h.(filename := name));
      TextBack(h.permissions, h.size, name, maximumSize);
    }
  }

  /**
   * What an upload writes for its header, the "C", the line and the newline, is what a
   * download reads back, leaving what follows, if and only if the size is not more than the
   * download allows, the line fits 16 KiB, and the filename does not end in a CR.
   */
  lemma HeaderBack(h: FileHeader, bytes: seq<byte>, f: Feed, maximumSize: nat, utf8: seq<byte> -> string)
    requires ' ' !in h.permissions && h.size < TWO_64 && NEWLINE !in bytes && Encodes(bytes, HeaderText(h), utf8)
    ensures
      var f1 := f.(pending := [LETTER_C] + (bytes + [NEWLINE] + f.pending));
      HeaderOf(f1, maximumSize, utf8) == (Ok(h), f)
      <==> h.size <= maximumSize && |bytes| <= MAX_LINE && !EndsInReturn(bytes)
  {
    var more := bytes + [NEWLINE] + f.pending;
    var f1 := f.(pending := [LETTER_C] + more);
    assert f1.pending[0] == LETTER_C && f1.pending[1..] == more;
    LineBack(bytes, f, HEADER_CONTEXT, utf8);
    TextBack(h.permissions, h.size, h.filename, maximumSize);
    if EndsInReturn(bytes) {
      WithoutReturn(h, utf8(StripReturn(bytes)), maximumSize);
    }
  }
}
