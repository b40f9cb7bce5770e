/**
 * SCPEventReader (Sources/SSHKit/SCPClient.swift): reading the SCP protocol from the
 * event stream of a remote command. What a script of reads returns depends on the
 * bytes and the final status only, not on how they were split into events.
 */
module ScpReader {
  import opened Octets

  const MAX_LINE: nat := 16 * 1024
  const LETTER_C: byte := 67

  datatype Event = Output(bytes: seq<byte>) | Diagnostics(bytes: seq<byte>) | Closed(status: int)

  datatype Error =
    | EndedWithStatus(context: string, status: int, stderr: string)
    | EndedBeforeData(context: string)
    | LineTooLong(context: string)
    | AckFailed(context: string, message: string)
    | UnexpectedAck(context: string, response: byte)
    | DownloadFailed(message: string)
    | UnsupportedResponse(response: byte)
    | MalformedHeader
    | SizeExceeds(size: nat, maximum: nat)
    | ExitedWithStatus(context: string, status: int, stderr: string)
    | TrailingData(context: string)
    | NoCloseStatus(context: string)

  datatype Result<T> = Ok(value: T) | Failed(error: Error)

  datatype FileHeader = FileHeader(permissions: string, size: nat, filename: string)

  const HEADER_CONTEXT := "SCP download header"

  // ---- Text of a header line ----

  function IndexOf(s: string, c: char): (i: nat)
    ensures i <= |s| && (i < |s| ==> s[i] == c) && c !in s[..i]
  {
    if s == [] || s[0] == c then 0 else 1 + IndexOf(s[1..], c)
  }

  /** split(separator: " ", maxSplits: 2, omittingEmptySubsequences: false) when it gives three parts. */
  function SplitHeader(line: string): Option<(string, string, string)> {
    var i := IndexOf(line, ' ');
    if i == |line| then None
    else
      var rest := line[i + 1..];
      var j := IndexOf(rest, ' ');
      if j == |rest| then None else Some((line[..i], rest[..j], rest[j + 1..]))
  }

  function Digits(s: string): Option<nat> {
    if s == [] then Some(0)
    else
      var c := s[|s| - 1];
      var front := Digits(s[..|s| - 1]);
      if front.None? || !('0' <= c <= '9') then None else Some(10 * front.value + (c as int - '0' as int))
  }

  /** UInt64(_: String) */
  function ParseUInt64(s: string): (n: Option<nat>)
    ensures n.Some? ==> n.value < TWO_64
  {
    var signed := s != [] && (s[0] == '+' || s[0] == '-');
    var digits := if signed then s[1..] else s;
    if digits == [] || Digits(digits).None? then None
    else if signed && s[0] == '-' then (if Digits(digits).value == 0 then Some(0) else None)
    else if Digits(digits).value < TWO_64 then Digits(digits)
    else None
  }

  function ParseHeader(line: string, maximumSize: nat): Result<FileHeader> {
    var parts := SplitHeader(line);
    if parts.None? || ParseUInt64(parts.value.1).None? then Failed(MalformedHeader)
    else
      var size := ParseUInt64(parts.value.1).value;
      if size > maximumSize then Failed(SizeExceeds(size, maximumSize))
      else Ok(FileHeader(parts.value.0, size, parts.value.2))
  }

  /** A size as Swift interpolates it into a string. */
  function Decimal(n: nat): string {
    if n < 10 then [('0' as int + n) as char] else Decimal(n / 10) + [('0' as int + n % 10) as char]
  }

  lemma {:induction false} DecimalBack(n: nat)
    ensures Digits(Decimal(n)) == Some(n) && Decimal(n) != [] && ' ' !in Decimal(n)
    ensures '0' <= Decimal(n)[0] <= '9'
  {
    if n < 10 {
      assert Decimal(n)[..0] == [];
    } else {
      DecimalBack(n / 10);
      assert Decimal(n)[..|Decimal(n)| - 1] == Decimal(n / 10);
    }
  }

  lemma {:induction false} IndexOfSpace(front: string, rest: string)
    requires ' ' !in front
    ensures IndexOf(front + " " + rest, ' ') == |front|
  {
    if front == [] {
      assert (front + " " + rest)[0] == ' ';
    } else {
      IndexOfSpace(front[1..], rest);
      assert (front + " " + rest)[1..] == front[1..] + " " + rest;
    }
  }

  lemma SplitBack(permissions: string, size: string, filename: string)
    requires ' ' !in permissions && ' ' !in size
    ensures SplitHeader(permissions + " " + (size + " " + filename)) == Some((permissions, size, filename))
  {
    var tail := size + " " + filename;
    var line := permissions + " " + tail;
    IndexOfSpace(permissions, tail);
    IndexOfSpace(size, filename);
    assert line[..|permissions|] == permissions && line[|permissions| + 1..] == tail;
    assert tail[..|size|] == size && tail[|size| + 1..] == filename;
  }

  lemma SizeBack(n: nat)
    requires n < TWO_64
    ensures ParseUInt64(Decimal(n)) == Some(n)
  {
    DecimalBack(n);
  }

  /** The text an upload writes between its "C" and its newline parses back to its fields. */
  lemma TextBack(permissions: string, size: nat, filename: string, maximumSize: nat)
    requires ' ' !in permissions && size < TWO_64
    ensures ParseHeader(permissions + " " + (Decimal(size) + " " + filename), maximumSize)
            == if size <= maximumSize then Ok(FileHeader(permissions, size, filename))
               else Failed(SizeExceeds(size, maximumSize))
  {
    DecimalBack(size);
    SplitBack(permissions, Decimal(size), filename);
    SizeBack(size);
  }

  // ---- What an event stream amounts to ----

  /** All the bytes of each stream, and the status; None when the stream ends without one. */
  datatype Feed = Feed(pending: seq<byte>, stderr: seq<byte>, end: Option<int>)

  /** The feed with earlier output and diagnostics put in front. */
  function After(out: seq<byte>, err: seq<byte>, f: Feed): Feed {
    Feed(out + f.pending, err + f.stderr, f.end)
  }

  /** The feed with one event in front; nothing after a close event counts. */
  function Prepend(e: Event, f: Feed): Feed {
    match e
    case Output(bytes) => After(bytes, [], f)
    case Diagnostics(bytes) => After([], bytes, f)
    case Closed(status) => Feed([], [], Some(status))
  }

  function Flatten(events: seq<Event>): Feed {
    if events == [] then Feed([], [], None) else Prepend(events[0], Flatten(events[1..]))
  }

  // ---- Reading from the flattened feed ----

  /** The error of a read that finds no more output. */
  function EndError(f: Feed, context: string, utf8: seq<byte> -> string): Error {
    match f.end
    case Some(status) => EndedWithStatus(context, status, utf8(f.stderr))
    case None => EndedBeforeData(context)
  }

  function StripReturn(line: seq<byte>): seq<byte> {
    if line != [] && line[|line| - 1] == RETURN then line[..|line| - 1] else line
  }

  function ByteOf(f: Feed, context: string, utf8: seq<byte> -> string): (Result<byte>, Feed) {
    if f.pending != [] then (Ok(f.pending[0]), f.(pending := f.pending[1..]))
    else (Failed(EndError(f, context, utf8)), f)
  }

  function LineOf(f: Feed, context: string, utf8: seq<byte> -> string): (Result<string>, Feed) {
    var n := FirstNewline(f.pending);
    if n > MAX_LINE then (Failed(LineTooLong(context)), f)
    else if n == |f.pending| then (Failed(EndError(f, context, utf8)), f)
    else (Ok(utf8(StripReturn(f.pending[..n]))), f.(pending := f.pending[n + 1..]))
  }

  function BytesOf(f: Feed, count: nat, context: string, utf8: seq<byte> -> string): (Result<seq<byte>>, Feed) {
    if count <= |f.pending| then (Ok(f.pending[..count]), f.(pending := f.pending[count..]))
    else (Failed(EndError(f, context, utf8)), f)
  }

  function AckOf(f: Feed, context: string, utf8: seq<byte> -> string): (Result<()>, Feed) {
    var (response, f1) := ByteOf(f, context, utf8);
    match response
    case Failed(e) => (Failed(e), f)
    case Ok(b) =>
      if b == 0 then (Ok(()), f1)
      else if b == 1 || b == 2 then
        (Failed(match LineOf(f1, context, utf8).0
                case Failed(e) => e
                case Ok(message) => AckFailed(context, message)), f)
      else (Failed(UnexpectedAck(context, b)), f)
  }

  function HeaderOf(f: Feed, maximumSize: nat, utf8: seq<byte> -> string): (Result<FileHeader>, Feed) {
    var (response, f1) := ByteOf(f, HEADER_CONTEXT, utf8);
    match response
    case Failed(e) => (Failed(e), f)
    case Ok(b) =>
      var (line, f2) := LineOf(f1, HEADER_CONTEXT, utf8);
      if b == 1 || b == 2 then
        (Failed(match line case Failed(e) => e case Ok(message) => DownloadFailed(message)), f)
      else if b != LETTER_C then
        (Failed(UnsupportedResponse(b)), f)
      else
        match line
        case Failed(e) => (Failed(e), f)
        case Ok(text) => (ParseHeader(text, maximumSize), f2)
  }

  function ClosedOf(f: Feed, context: string, utf8: seq<byte> -> string): Result<()> {
    match f.end
    case None => Failed(NoCloseStatus(context))
    case Some(status) =>
      if status != 0 then Failed(ExitedWithStatus(context, status, utf8(f.stderr)))
      else if f.pending != [] then Failed(TrailingData(context))
      else Ok(())
  }

  // ---- The reader ----

  /** `f` is what remains of `start` once `taken` has been read off its output. */
  ghost predicate ReadOff(start: Feed, taken: seq<byte>, f: Feed) {
    start.pending == taken + f.pending && start.stderr == f.stderr && start.end == f.end
  }

  class SCPEventReader {
    const utf8: seq<byte> -> string
    var events: seq<Event>
    var buffer: seq<byte>
    var standardError: seq<byte>

    constructor (events: seq<Event>, utf8: seq<byte> -> string)
      ensures Remaining() == Flatten(events) && this.utf8 == utf8
    {
      this.utf8 := utf8;
      this.events := events;
      buffer, standardError := [], [];
    }

    /** All that is still to be read. */
    ghost function Remaining(): Feed
      reads this
    {
      After(buffer, standardError, Flatten(events))
    }

    method FillBuffer(context: string) returns (error: Option<Error>)
      requires buffer == []
      modifies this
      ensures error.None? ==> buffer != [] && Remaining() == old(Remaining()) && |events| < |old(events)|
      ensures error.None? <==> old(Remaining()).pending != []
      ensures error.Some? ==> error.value == EndError(old(Remaining()), context, utf8)
    {
      while events != []
        invariant buffer == [] && Remaining() == old(Remaining()) && |events| <= |old(events)|
        decreases |events|
      {
        var event := events[0];
        ghost var rest := Flatten(events[1..]);
        events := events[1..];
        match event {
          case Output(bytes) =>
            if bytes != [] {
              buffer := buffer + bytes;
              return None;
            }
          case Diagnostics(bytes) =>
            assert standardError + (bytes + rest.stderr) == (standardError + bytes) + rest.stderr;
            standardError := standardError + bytes;
          case Closed(status) =>
            assert standardError + [] == standardError;
            return Some(EndedWithStatus(context, status, utf8(standardError)));
        }
      }
      return Some(EndedBeforeData(context));
    }

    method ReadByte(context: string) returns (r: Result<byte>)
      modifies this
      ensures r == ByteOf(old(Remaining()), context, utf8).0
      ensures r.Ok? ==> Remaining() == ByteOf(old(Remaining()), context, utf8).1
    {
      while buffer == []
        invariant Remaining() == old(Remaining())
        decreases if buffer == [] then 1 else 0
      {
        var error := FillBuffer(context);
        if error.Some? {
          return Failed(error.value);
        }
      }
      r := Ok(buffer[0]);
      buffer := buffer[1..];
    }

    method ReadLine(context: string) returns (r: Result<string>)
      modifies this
      ensures r == LineOf(old(Remaining()), context, utf8).0
      ensures r.Ok? ==> Remaining() == LineOf(old(Remaining()), context, utf8).1
    {
      var line: seq<byte> := [];
      ghost var start := Remaining();
      while true
        invariant ReadOff(start, line, Remaining())
        invariant NEWLINE !in line && |line| <= MAX_LINE
        decreases MAX_LINE - |line|
      {
        ghost var rest := Remaining();
        LineEnds(start, line, rest, context, utf8);
        var next := ReadByte(context);
        if next.Failed? {
          return Failed(next.error);
        }
        if next.value == NEWLINE {
          return Ok(utf8(StripReturn(line)));
        }
        TakeOne(start, line, rest);
        line := line + [next.value];
        if |line| > MAX_LINE {
          LineProgress(start, line, Remaining());
          return Failed(LineTooLong(context));
        }
      }
    }

    method TakePrefix(takeCount: nat) returns (taken: seq<byte>)
      requires takeCount <= |buffer|
      modifies this`buffer
      ensures taken == old(Remaining()).pending[..takeCount]
      ensures Remaining() == old(Remaining()).(pending := old(Remaining()).pending[takeCount..])
    {
      taken := buffer[..takeCount];
      buffer := buffer[takeCount..];
    }

    method ReadBytes(count: nat, context: string) returns (r: Result<seq<byte>>)
      modifies this
      ensures r == BytesOf(old(Remaining()), count, context, utf8).0
      ensures r.Ok? ==> Remaining() == BytesOf(old(Remaining()), count, context, utf8).1
    {
      var output: seq<byte> := [];
      ghost var start := Remaining();
      while |output| < count
        invariant ReadOff(start, output, Remaining())
        invariant |output| <= count
        decreases count - |output|, if buffer == [] then 1 else 0
      {
        if buffer != [] {
          var takeCount := Min(count - |output|, |buffer|);
          TakeMore(start, output, Remaining(), takeCount);
          var taken := TakePrefix(takeCount);
          output := output + taken;
        } else {
          var error := FillBuffer(context);
          if error.Some? {
            return Failed(error.value);
          }
        }
      }
      return Ok(output);
    }

    method ExpectAck(context: string) returns (r: Result<()>)
      modifies this
      ensures r == AckOf(old(Remaining()), context, utf8).0
      ensures r.Ok? ==> Remaining() == AckOf(old(Remaining()), context, utf8).1
    {
      var response := ReadByte(context);
      match response {
        case Failed(e) => return Failed(e);
        case Ok(b) =>
          if b == 0 {
            return Ok(());
          } else if b == 1 || b == 2 {
            var message := ReadLine(context);
            match message {
              case Failed(e) => return Failed(e);
              case Ok(text) => return Failed(AckFailed(context, text));
            }
          }
          return Failed(UnexpectedAck(context, b));
      }
    }

    method ReadFileHeader(maximumSize: nat) returns (r: Result<FileHeader>)
      modifies this
      ensures r == HeaderOf(old(Remaining()), maximumSize, utf8).0
      ensures r.Ok? ==> Remaining() == HeaderOf(old(Remaining()), maximumSize, utf8).1
    {
      var response := ReadByte(HEADER_CONTEXT);
      if response.Failed? {
        return Failed(response.error);
      }
      var b := response.value;
      if b == 1 || b == 2 {
        var message := ReadLine(HEADER_CONTEXT);
        match message {
          case Failed(e) => return Failed(e);
          case Ok(text) => return Failed(DownloadFailed(text));
        }
      }
      if b != LETTER_C {
        return Failed(UnsupportedResponse(b));
      }
      var line := ReadLine(HEADER_CONTEXT);
      if line.Failed? {
        return Failed(line.error);
      }
      return ParseHeader(line.value, maximumSize);
    }

    /** Everything up to the close event is read first, so nothing can hide behind it. */
    method ExpectClosed(context: string) returns (r: Result<()>)
      modifies this
      ensures r == ClosedOf(old(Remaining()), context, utf8)
    {
      while events != []
        invariant Remaining() == old(Remaining())
        decreases |events|
      {
        var event := events[0];
        ghost var rest := Flatten(events[1..]);
        events := events[1..];
        match event {
          case Output(bytes) =>
            assert buffer + (bytes + rest.pending) == (buffer + bytes) + rest.pending;
            buffer := buffer + bytes;
          case Diagnostics(bytes) =>
            assert standardError + (bytes + rest.stderr) == (standardError + bytes) + rest.stderr;
            standardError := standardError + bytes;
          case Closed(status) =>
            assert standardError + [] == standardError;
            if status != 0 {
              return Failed(ExitedWithStatus(context, status, utf8(standardError)));
            }
            if buffer != [] {
              return Failed(TrailingData(context));
            }
            return Ok(());
        }
      }
      return Failed(NoCloseStatus(context));
    }
  }

  lemma TakeMore(start: Feed, taken: seq<byte>, f: Feed, k: nat)
    requires ReadOff(start, taken, f) && k <= |f.pending|
    ensures ReadOff(start, taken + f.pending[..k], f.(pending := f.pending[k..]))
  {
  }

  /** Where the first newline is, once `line` without one has been read off the front. */
  lemma {:induction false} LineProgress(start: Feed, line: seq<byte>, rest: Feed)
    requires ReadOff(start, line, rest) && NEWLINE !in line
    ensures FirstNewline(start.pending) == |line| + FirstNewline(rest.pending)
    decreases |line|
  {
    if line == [] {
      assert start.pending == rest.pending;
    } else {
      assert start.pending[1..] == line[1..] + rest.pending;
      LineProgress(start.(pending := line[1..] + rest.pending), line[1..], rest);
    }
  }

  lemma TakeOne(start: Feed, line: seq<byte>, f: Feed)
    requires ReadOff(start, line, f) && f.pending != []
    ensures ReadOff(start, line + [f.pending[0]], f.(pending := f.pending[1..]))
  {
    TakeMore(start, line, f, 1);
    assert f.pending[..1] == [f.pending[0]];
  }

  /** How the line ends when the next byte is a newline, or missing. */
  lemma LineEnds(start: Feed, line: seq<byte>, f: Feed, context: string, utf8: seq<byte> -> string)
    requires ReadOff(start, line, f) && NEWLINE !in line && |line| <= MAX_LINE
    ensures f.pending == [] ==> LineOf(start, context, utf8).0 == Failed(EndError(f, context, utf8))
    ensures f.pending != [] && f.pending[0] == NEWLINE ==>
              LineOf(start, context, utf8) == (Ok(utf8(StripReturn(line))), f.(pending := f.pending[1..]))
  {
    LineProgress(start, line, f);
    assert start.pending[..|line|] == line;
    assert f.pending != [] ==> start.pending[|line| + 1..] == f.pending[1..];
  }

  // ---- Scripts of reads ----

  datatype Call =
    | Ack(context: string)
    | Line(context: string)
    | Bytes(count: nat, context: string)
    | Header(maximumSize: nat)
    | Close(context: string)

  datatype Answer =
    | Acknowledged
    | GotLine(line: string)
    | GotBytes(bytes: seq<byte>)
    | GotHeader(header: FileHeader)
    | Finished
    | Threw(error: Error)

  function AnswerOf(f: Feed, call: Call, utf8: seq<byte> -> string): (Answer, Feed) {
    match call
    case Ack(context) =>
      var (r, f1) := AckOf(f, context, utf8);
      (match r case Ok(_) => Acknowledged case Failed(e) => Threw(e), f1)
    case Line(context) =>
      var (r, f1) := LineOf(f, context, utf8);
      (match r case Ok(line) => GotLine(line) case Failed(e) => Threw(e), f1)
    case Bytes(count, context) =>
      var (r, f1) := BytesOf(f, count, context, utf8);
      (match r case Ok(bytes) => GotBytes(bytes) case Failed(e) => Threw(e), f1)
    case Header(maximumSize) =>
      var (r, f1) := HeaderOf(f, maximumSize, utf8);
      (match r case Ok(header) => GotHeader(header) case Failed(e) => Threw(e), f1)
    case Close(context) =>
      (match ClosedOf(f, context, utf8) case Ok(_) => Finished case Failed(e) => Threw(e), f)
  }

  /** The answers of a script, which ends at the first error or after a close. */
  function Answers(f: Feed, script: seq<Call>, utf8: seq<byte> -> string): seq<Answer>
    decreases |script|
  {
    if script == [] then []
    else
      var (answer, f1) := AnswerOf(f, script[0], utf8);
      if answer.Threw? || answer.Finished? then [answer] else [answer] + Answers(f1, script[1..], utf8)
  }

  method Perform(reader: SCPEventReader, call: Call) returns (answer: Answer)
    modifies reader
    ensures answer == AnswerOf(old(reader.Remaining()), call, reader.utf8).0
    ensures !answer.Threw? && !answer.Finished? ==>
              reader.Remaining() == AnswerOf(old(reader.Remaining()), call, reader.utf8).1
  {
    match call {
      case Ack(context) =>
        var r := reader.ExpectAck(context);
        return match r case Ok(_) => Acknowledged case Failed(e) => Threw(e);
      case Line(context) =>
        var r := reader.ReadLine(context);
        return match r case Ok(line) => GotLine(line) case Failed(e) => Threw(e);
      case Bytes(count, context) =>
        var r := reader.ReadBytes(count, context);
        return match r case Ok(bytes) => GotBytes(bytes) case Failed(e) => Threw(e);
      case Header(maximumSize) =>
        var r := reader.ReadFileHeader(maximumSize);
        return match r case Ok(header) => GotHeader(header) case Failed(e) => Threw(e);
      case Close(context) =>
        var r := reader.ExpectClosed(context);
        return match r case Ok(_) => Finished case Failed(e) => Threw(e);
    }
  }

  /** One call of a script; `rest` is what is left of it, `all` the answers still to come. */
  method PerformNext(reader: SCPEventReader, call: Call, ghost rest: seq<Call>, ghost all: seq<Answer>)
    returns (answer: Answer, stop: bool)
    requires rest != [] && rest[0] == call && all == Answers(reader.Remaining(), rest, reader.utf8)
    modifies reader
    ensures all != [] && all[0] == answer
    ensures all[1..] == if stop then [] else Answers(reader.Remaining(), rest[1..], reader.utf8)
  {
    AnswersStep(reader.Remaining(), rest, reader.utf8);
    answer := Perform(reader, call);
    stop := answer.Threw? || answer.Finished?;
  }

  /** A script run against an event stream answers as it would on the flattened feed. */
  method RunScript(events: seq<Event>, script: seq<Call>, utf8: seq<byte> -> string) returns (answers: seq<Answer>)
    ensures answers == Answers(Flatten(events), script, utf8)
  {
    var reader := new SCPEventReader(events, utf8);
    answers := [];
    var i := 0;
    ghost var all := Answers(Flatten(events), script, utf8);
    assert script[0..] == script && all[0..] == all;
    while i < |script|
      invariant 0 <= i <= |script| && i <= |all| && answers == all[..i]
      invariant all[i..] == Answers(reader.Remaining(), script[i..], utf8)
      invariant reader.utf8 == utf8 && fresh(reader)
    {
      var answer, stop := PerformNext(reader, script[i], script[i..], all[i..]);
      assert script[i..][1..] == script[i + 1..] && all[i..][1..] == all[i + 1..];
      answers := answers + [answer];
      i := i + 1;
      if stop {
        return;
      }
    }
  }

  lemma AnswersStep(f: Feed, script: seq<Call>, utf8: seq<byte> -> string)
    requires script != []
    ensures
      var (answer, f1) := AnswerOf(f, script[0], utf8);
      var all := Answers(f, script, utf8);
      && all != [] && all[0] == answer
      && all[1..] == (if answer.Threw? || answer.Finished? then [] else Answers(f1, script[1..], utf8))
  {
  }

  // ---- How the bytes were split does not matter ----

  /** Nothing after the close event matters. */
  lemma {:induction false} NothingAfterClosed(a: seq<Event>, status: int, b: seq<Event>)
    ensures Flatten(a + [Closed(status)] + b) == Flatten(a + [Closed(status)])
  {
    if a != [] {
      assert (a + [Closed(status)] + b)[1..] == a[1..] + [Closed(status)] + b;
      assert (a + [Closed(status)])[1..] == a[1..] + [Closed(status)];
      NothingAfterClosed(a[1..], status, b);
    }
  }

  /** The events before the first close. */
  function UpToClose(events: seq<Event>): (before: seq<Event>)
    ensures before <= events && forall e :: e in before ==> !e.Closed?
    ensures |before| < |events| ==> events[|before|].Closed?
  {
    if events == [] || events[0].Closed? then [] else [events[0]] + UpToClose(events[1..])
  }

  /** The status of the first close, if there is one. */
  function StatusOf(events: seq<Event>): Option<int> {
    var n := |UpToClose(events)|;
    if n < |events| then Some(events[n].status) else None
  }

  /** All output, whatever the chunks. */
  function OutputOf(events: seq<Event>): seq<byte> {
    if events == [] then [] else (if events[0].Output? then events[0].bytes else []) + OutputOf(events[1..])
  }

  function DiagnosticsOf(events: seq<Event>): seq<byte> {
    if events == [] then [] else (if events[0].Diagnostics? then events[0].bytes else []) + DiagnosticsOf(events[1..])
  }

  /** A reader works on the concatenation of the output, that of the diagnostics, and the status. */
  lemma {:induction false} FlattenConcatenates(events: seq<Event>)
    ensures Flatten(events) == Feed(OutputOf(UpToClose(events)), DiagnosticsOf(UpToClose(events)), StatusOf(events))
  {
    if events != [] && !events[0].Closed? {
      FlattenConcatenates(events[1..]);
      assert UpToClose(events)[1..] == UpToClose(events[1..]);
    }
  }

  /** The same output, diagnostics and status up to the first close, in whatever chunks and however interleaved. */
  ghost predicate SameStreams(a: seq<Event>, b: seq<Event>) {
    && OutputOf(UpToClose(a)) == OutputOf(UpToClose(b))
    && DiagnosticsOf(UpToClose(a)) == DiagnosticsOf(UpToClose(b))
    && StatusOf(a) == StatusOf(b)
  }

  /** Any two event streams that carry the same bytes and status give every script the same answers. */
  lemma {:induction false} ChunksDoNotMatter(a: seq<Event>, b: seq<Event>, script: seq<Call>, utf8: seq<byte> -> string)
    requires SameStreams(a, b)
    ensures Answers(Flatten(a), script, utf8) == Answers(Flatten(b), script, utf8)
  {
    FlattenConcatenates(a);
    FlattenConcatenates(b);
  }
}
