// What the checksummed reader does with the bytes it is given, as a function of its state: the
// header states with their fall through, the sliding header buffer, the body and the checks.
// Bytes are characters here; the checksum is any function to 32 characters without a comma.
module ChecksummedFraming {
  import opened Wrappers
  import opened Text
  import opened Lists

  type Checksum = string -> string

  const SYNC := "SYNC"
  const SIZE_OF_LARGEST_HEADER_COMPONENT := 32

  ghost predicate IsChecksum(cs: Checksum)
  {
    forall s: string :: |cs(s)| == 32 && ',' !in cs(s)
  }

  datatype HeaderState = LookingForSync | ReadingChecksumOfSizeOfData | ReadingSizeOfData | ReadingChecksumOfData

  datatype Header = Header(state: HeaderState, buffer: string, checksumOfSize: string, size: int, sizeString: string,
                           messageChecksum: string)

  datatype Reader = Reader(header: Header, haveReadHeader: bool, bytesLeft: int, message: string)

  const INITIAL := Reader(Header(LookingForSync, "", "", 0, "", ""), false, 0, "")

  // ---------- the reader as the program runs it ----------

  function Slide(buffer: string, c: char): string
  {
    if |buffer| + 1 > SIZE_OF_LARGEST_HEADER_COMPONENT then (buffer + [c])[1..] else buffer + [c]
  }

  datatype Field = Field(found: bool, buffer: string, rest: string)

  function UntilComma(buffer: string, input: string): (r: Field)
    ensures |r.rest| <= |input|
    ensures input != "" ==> |r.rest| < |input|
    ensures !r.found ==> r.rest == ""
    decreases |input|
  {
    if input == "" then Field(false, buffer, "")
    else if input[0] == ',' then Field(true, buffer, input[1..])
    else UntilComma(Slide(buffer, input[0]), input[1..])
  }

  datatype HeaderRead = HeaderRead(header: Header, rest: string, complete: bool)

  function ReadMessageChecksum(h: Header, input: string): (r: HeaderRead)
    ensures |r.rest| <= |input| && (input != "" ==> |r.rest| < |input|)
  {
    var f := UntilComma(h.buffer, input);
    if !f.found then HeaderRead(h.(buffer := f.buffer), f.rest, false)
    else HeaderRead(h.(messageChecksum := f.buffer, buffer := "", state := LookingForSync), f.rest, true)
  }

  function ReadSize(cs: Checksum, h: Header, input: string): (r: HeaderRead)
    ensures |r.rest| <= |input| && (input != "" ==> |r.rest| < |input|)
  {
    var f := UntilComma(h.buffer, input);
    if !f.found then HeaderRead(h.(buffer := f.buffer), f.rest, false)
    else
      match ParseInt(f.buffer, 32)
      case None => HeaderRead(h.(buffer := f.buffer, size := 0, state := LookingForSync), f.rest, false)
      case Some(n) =>
        var h' := h.(buffer := "", size := n, sizeString := f.buffer);
        if cs(f.buffer) != h.checksumOfSize then HeaderRead(h'.(state := LookingForSync), f.rest, false)
        else ReadMessageChecksum(h'.(state := ReadingChecksumOfData), f.rest)
  }

  function ReadChecksumOfSize(cs: Checksum, h: Header, input: string): (r: HeaderRead)
    ensures |r.rest| <= |input| && (input != "" ==> |r.rest| < |input|)
  {
    var f := UntilComma(h.buffer, input);
    if !f.found then HeaderRead(h.(buffer := f.buffer), f.rest, false)
    else ReadSize(cs, h.(checksumOfSize := f.buffer, buffer := "", state := ReadingSizeOfData), f.rest)
  }

  // Without SYNC the state stays as it was, but the next field is read all the same.
  function ReadSync(cs: Checksum, h: Header, input: string): (r: HeaderRead)
    ensures |r.rest| <= |input| && (input != "" ==> |r.rest| < |input|)
  {
    var f := UntilComma(h.buffer, input);
    if !f.found then HeaderRead(h.(buffer := f.buffer), f.rest, false)
    else
      ReadChecksumOfSize(cs, h.(buffer := "",
                                state := if EndsWith(f.buffer, SYNC) then ReadingChecksumOfSizeOfData else h.state), f.rest)
  }

  function ReadHeader(cs: Checksum, h: Header, input: string): (r: HeaderRead)
    ensures |r.rest| <= |input| && (input != "" ==> |r.rest| < |input|)
  {
    match h.state
    case LookingForSync => ReadSync(cs, h, input)
    case ReadingChecksumOfSizeOfData => ReadChecksumOfSize(cs, h, input)
    case ReadingSizeOfData => ReadSize(cs, h, input)
    case ReadingChecksumOfData => ReadMessageChecksum(h, input)
  }

  datatype MessageRead = MessageRead(reader: Reader, rest: string, message: Option<string>)

  function ReadBody(cs: Checksum, r: Reader, input: string): (m: MessageRead)
    ensures |m.rest| <= |input| && (input != "" && r.bytesLeft >= 1 ==> |m.rest| < |input|)
  {
    var n := if r.bytesLeft < |input| then r.bytesLeft else |input|;
    if n < 1 then MessageRead(r, input, None)
    else
      var r' := r.(message := r.message + input[..n], bytesLeft := r.bytesLeft - n, haveReadHeader := r.bytesLeft > n);
      MessageRead(r', input[n..],
                  if r'.bytesLeft < 1 && cs(r'.message) == r.header.messageChecksum then Some(r'.message) else None)
  }

  function ReadMessage(cs: Checksum, r: Reader, input: string): (m: MessageRead)
    ensures |m.rest| <= |input|
    ensures input != "" ==> (|m.rest| < |input| <==> !r.haveReadHeader || r.bytesLeft >= 1)
  {
    if r.haveReadHeader then ReadBody(cs, r, input)
    else
      var h := ReadHeader(cs, r.header, input);
      if !h.complete then MessageRead(r.(header := h.header), h.rest, None)
      else ReadBody(cs, Reader(h.header, true, h.header.size, ""), h.rest)
  }

  // handleReadyRead on all bytes that are available. stuck: the loop goes on for ever.
  datatype Handled = Handled(reader: Reader, emitted: seq<string>, stuck: bool)

  function Emission(m: Option<string>): seq<string>
  {
    match m
    case None => []
    case Some(s) => [s]
  }

  function Handle(cs: Checksum, r: Reader, input: string): Handled
    decreases |input|
  {
    if input == "" then Handled(r, [], false)
    else
      var m := ReadMessage(cs, r, input);
      if |m.rest| == |input| then Handled(m.reader, [], true)
      else
        var then_ := Handle(cs, m.reader, m.rest);
        Handled(then_.reader, Emission(m.message) + then_.emitted, then_.stuck)
  }

  // Bytes that arrive in pieces.
  function HandleAll(cs: Checksum, r: Reader, chunks: seq<string>): Handled
    decreases |chunks|
  {
    if chunks == [] then Handled(r, [], false)
    else
      var first := Handle(cs, r, chunks[0]);
      if first.stuck then first
      else
        var then_ := HandleAll(cs, first.reader, chunks[1..]);
        Handled(then_.reader, first.emitted + then_.emitted, then_.stuck)
  }

  // ---------- one byte at a time, as long as nothing is out of sync ----------

  datatype Progress = Progress(reader: Reader, emitted: seq<string>)

  // A size that is refused is followed by the next header; only one that is no number stays in the
  // buffer.
  function SizeRead(cs: Checksum, h: Header): Header
  {
    match ParseInt(h.buffer, 32)
    case None => h.(size := 0, state := LookingForSync)
    case Some(n) =>
      h.(buffer := "", size := n, sizeString := h.buffer,
         state := if cs(h.buffer) == h.checksumOfSize then ReadingChecksumOfData else LookingForSync)
  }

  function NextByte(cs: Checksum, r: Reader, c: char): Option<Progress>
  {
    var h := r.header;
    if r.haveReadHeader then
      if r.bytesLeft < 1 then None
      else
        var r' := r.(message := r.message + [c], bytesLeft := r.bytesLeft - 1, haveReadHeader := r.bytesLeft > 1);
        Some(Progress(r', if r'.bytesLeft < 1 && cs(r'.message) == h.messageChecksum then [r'.message] else []))
    else if c != ',' then Some(Progress(r.(header := h.(buffer := Slide(h.buffer, c))), []))
    else
      match h.state
      case LookingForSync =>
        if EndsWith(h.buffer, SYNC) then
          Some(Progress(r.(header := h.(buffer := "", state := ReadingChecksumOfSizeOfData)), []))
        else None
      case ReadingChecksumOfSizeOfData =>
        Some(Progress(r.(header := h.(buffer := "", checksumOfSize := h.buffer, state := ReadingSizeOfData)), []))
      case ReadingSizeOfData =>
        Some(Progress(r.(header := SizeRead(cs, h)), []))
      case ReadingChecksumOfData =>
        Some(Progress(Reader(h.(buffer := "", messageChecksum := h.buffer, state := LookingForSync), true, h.size, ""), []))
  }

  // None as soon as the stream is out of sync.
  function Run(cs: Checksum, r: Reader, input: string): Option<Progress>
    decreases |input|
  {
    if input == "" then Some(Progress(r, []))
    else
      match NextByte(cs, r, input[0])
      case None => None
      case Some(p) => After(p.emitted, Run(cs, p.reader, input[1..]))
  }

  function After(emitted: seq<string>, p: Option<Progress>): Option<Progress>
  {
    match p
    case None => None
    case Some(q) => Some(Progress(q.reader, emitted + q.emitted))
  }

  lemma NothingBefore(p: Option<Progress>)
    ensures After([], p) == p
  {
    if p.Some? {
      assert [] + p.value.emitted == p.value.emitted;
    }
  }

  lemma AfterTwice(a: seq<string>, b: seq<string>, p: Option<Progress>)
    ensures After(a, After(b, p)) == After(a + b, p)
  {
    if p.Some? {
      assert a + (b + p.value.emitted) == a + b + p.value.emitted;
    }
  }

  function Onwards(cs: Checksum, p: Option<Progress>, input: string): Option<Progress>
  {
    match p
    case None => None
    case Some(q) => After(q.emitted, Run(cs, q.reader, input))
  }

  lemma {:induction false} RunAppend(cs: Checksum, r: Reader, a: string, b: string)
    ensures Run(cs, r, a + b) == Onwards(cs, Run(cs, r, a), b)
    decreases |a|
  {
    if a == "" {
      assert a + b == b;
      NothingBefore(Run(cs, r, b));
    } else {
      assert (a + b)[1..] == a[1..] + b;
      var next := NextByte(cs, r, a[0]);
      if next.Some? {
        var p := next.value;
        RunAppend(cs, p.reader, a[1..], b);
        var q := Run(cs, p.reader, a[1..]);
        hide NextByte;
        if q.Some? { AfterTwice(p.emitted, q.value.emitted, Run(cs, q.value.reader, b)); }
      }
    }
  }

  // ---------- both agree while in sync ----------

  lemma {:induction false} FieldAgrees(cs: Checksum, r: Reader, input: string)
    requires !r.haveReadHeader
    ensures var f := UntilComma(r.header.buffer, input);
            var r' := r.(header := r.header.(buffer := f.buffer));
            Run(cs, r, input) == if f.found then Run(cs, r', "," + f.rest) else Some(Progress(r', []))
    decreases |input|
  {
    if input == "" {
    } else if input[0] == ',' {
      assert "," + input[1..] == input;
    } else {
      var p := NextByte(cs, r, input[0]).value;
      FieldAgrees(cs, p.reader, input[1..]);
      NothingBefore(Run(cs, p.reader, input[1..]));
    }
  }

  // The comma itself.
  lemma CommaAgrees(cs: Checksum, r: Reader, rest: string)
    requires !r.haveReadHeader
    ensures Run(cs, r, "," + rest) == match NextByte(cs, r, ',')
                                      case None => None
                                      case Some(p) => Run(cs, p.reader, rest)
  {
    assert ("," + rest)[1..] == rest;
    match NextByte(cs, r, ',') {
      case None =>
      case Some(p) => NothingBefore(Run(cs, p.reader, rest));
    }
  }

  function Entered(h: HeaderRead, r: Reader): Reader
  {
    if h.complete then Reader(h.header, true, h.header.size, "") else r.(header := h.header)
  }

  function Preceded(before: seq<string>, h: Handled): Handled
  {
    h.(emitted := before + h.emitted)
  }

  lemma PrecededByNothing(h: Handled)
    ensures Preceded([], h) == h
  {
    assert [] + h.emitted == h.emitted;
  }

  lemma PrecededTwice(a: seq<string>, b: seq<string>, h: Handled)
    ensures Preceded(a, Preceded(b, h)) == Preceded(a + b, h)
  {
    assert a + (b + h.emitted) == a + b + h.emitted;
  }

  // One pass of the loop over all the bytes that are there.
  lemma HandleOnce(cs: Checksum, r: Reader, input: string)
    requires input != "" && ReadMessage(cs, r, input).rest == ""
    ensures var m := ReadMessage(cs, r, input);
            Handle(cs, r, input) == Handled(m.reader, Emission(m.message), false)
  {
    var m := ReadMessage(cs, r, input);
    hide ReadMessage;
    assert Handle(cs, m.reader, "") == Handled(m.reader, [], false);
    assert Emission(m.message) + [] == Emission(m.message);
  }

  lemma HandleSame(cs: Checksum, r: Reader, q: Reader, a: string, b: string)
    requires ReadMessage(cs, r, a) == ReadMessage(cs, q, b)
    requires |ReadMessage(cs, r, a).rest| < |a| && |ReadMessage(cs, r, a).rest| < |b|
    ensures Handle(cs, r, a) == Handle(cs, q, b)
  {
    hide ReadMessage;
  }

  lemma BodyStep(cs: Checksum, r: Reader, c: char, rest: string)
    requires r.haveReadHeader && r.bytesLeft > 1 && rest != ""
    ensures ReadBody(cs, r, [c] + rest) == ReadBody(cs, r.(message := r.message + [c], bytesLeft := r.bytesLeft - 1), rest)
  {
    var input := [c] + rest;
    var n := if r.bytesLeft < |input| then r.bytesLeft else |input|;
    assert r.message + input[..n] == r.message + [c] + rest[..n - 1];
    assert rest[n - 1..] == input[n..];
  }

  lemma BodyByte(cs: Checksum, r: Reader, c: char, rest: string)
    requires r.haveReadHeader && r.bytesLeft >= 1
    ensures var p := NextByte(cs, r, c).value;
            Handle(cs, r, [c] + rest) == Preceded(p.emitted, Handle(cs, p.reader, rest))
  {
    var p, input := NextByte(cs, r, c).value, [c] + rest;
    if r.bytesLeft == 1 || rest == "" {
      assert input[..1] == [c] && input[1..] == rest;
      var m := ReadMessage(cs, r, input);
      assert m.reader == p.reader && m.rest == rest && Emission(m.message) == p.emitted;
    } else {
      BodyStep(cs, r, c, rest);
      HandleSame(cs, r, p.reader, input, rest);
      PrecededByNothing(Handle(cs, p.reader, rest));
    }
  }

  // The next byte of a field.
  lemma FieldByte(cs: Checksum, r: Reader, c: char, rest: string)
    requires !r.haveReadHeader && c != ','
    ensures ReadHeader(cs, r.header, [c] + rest)
            == ReadHeader(cs, r.header.(buffer := Slide(r.header.buffer, c)), rest)
  {
    assert ([c] + rest)[1..] == rest;
    var buffer := r.header.buffer;
    assert UntilComma(buffer, [c] + rest) == UntilComma(Slide(buffer, c), rest);
    hide UntilComma; hide ParseInt;
  }

  // A comma in sync: the next field is read in the next state.
  lemma CommaByte(cs: Checksum, r: Reader, rest: string)
    requires !r.haveReadHeader && NextByte(cs, r, ',').Some? && r.header.state != ReadingChecksumOfData
    requires r.header.state == ReadingSizeOfData ==> SizeRead(cs, r.header).state == ReadingChecksumOfData
    ensures var p := NextByte(cs, r, ',').value;
            p.emitted == [] && ReadHeader(cs, r.header, "," + rest) == ReadHeader(cs, p.reader.header, rest)
  {
    assert ("," + rest)[1..] == rest;
    assert UntilComma(r.header.buffer, "," + rest) == Field(true, r.header.buffer, rest);
    hide UntilComma; hide ParseInt;
  }

  // What a header byte does when more bytes follow and when none do.
  lemma HeaderByte(cs: Checksum, r: Reader, c: char, q: Reader, rest: string)
    requires !r.haveReadHeader && !q.haveReadHeader && q == r.(header := q.header)
    requires ReadHeader(cs, r.header, [c] + rest) == ReadHeader(cs, q.header, rest)
    ensures Handle(cs, r, [c] + rest) == Handle(cs, q, rest)
  {
    if rest == "" {
      NoBytes(cs, q.header);
      hide ReadHeader;
      HandleOnce(cs, r, [c] + rest);
    } else {
      hide ReadHeader;
      HandleSame(cs, r, q, [c] + rest, rest);
    }
  }

  lemma NoBytes(cs: Checksum, h: Header)
    ensures ReadHeader(cs, h, "") == HeaderRead(h, "", false)
  {
  }

  // The comma that completes a header.
  lemma LastComma(cs: Checksum, r: Reader, rest: string)
    requires !r.haveReadHeader && r.header.state == ReadingChecksumOfData
    ensures var p := NextByte(cs, r, ',').value;
            p.emitted == [] && Handle(cs, r, "," + rest) == Handle(cs, p.reader, rest)
  {
    var p, input := NextByte(cs, r, ',').value, "," + rest;
    assert input[1..] == rest;
    assert ReadHeader(cs, r.header, input) == HeaderRead(p.reader.header, rest, true);
    hide ReadHeader;
    assert ReadMessage(cs, r, input) == ReadBody(cs, p.reader, rest);
    if p.reader.bytesLeft < 1 || rest == "" {
      assert ReadMessage(cs, r, input) == MessageRead(p.reader, rest, None);
      hide ReadMessage;
      PrecededByNothing(Handle(cs, p.reader, rest));
    } else {
      HandleSame(cs, r, p.reader, input, rest);
    }
  }

  // The comma behind a size that is refused ends one pass of the loop.
  lemma RefusedSize(cs: Checksum, r: Reader, rest: string)
    requires !r.haveReadHeader && r.header.state == ReadingSizeOfData && SizeRead(cs, r.header).state == LookingForSync
    ensures var p := NextByte(cs, r, ',').value;
            p.emitted == [] && Handle(cs, r, "," + rest) == Handle(cs, p.reader, rest)
  {
    var p, input := NextByte(cs, r, ',').value, "," + rest;
    assert input[1..] == rest;
    assert ReadHeader(cs, r.header, input) == HeaderRead(p.reader.header, rest, false) by { hide ParseInt; }
    hide ReadHeader; hide ParseInt;
    assert ReadMessage(cs, r, input) == MessageRead(p.reader, rest, None);
    hide ReadMessage;
    PrecededByNothing(Handle(cs, p.reader, rest));
  }

  // handleReadyRead may be left and entered again behind every byte.
  lemma ByteByByte(cs: Checksum, r: Reader, c: char, rest: string)
    requires NextByte(cs, r, c).Some?
    ensures var p := NextByte(cs, r, c).value;
            Handle(cs, r, [c] + rest) == Preceded(p.emitted, Handle(cs, p.reader, rest))
  {
    var p := NextByte(cs, r, c).value;
    if r.haveReadHeader {
      BodyByte(cs, r, c, rest);
    } else {
      PrecededByNothing(Handle(cs, p.reader, rest));
      if c != ',' {
        FieldByte(cs, r, c, rest);
        HeaderByte(cs, r, c, p.reader, rest);
      } else if r.header.state == ReadingChecksumOfData {
        LastComma(cs, r, rest);
      } else if r.header.state == ReadingSizeOfData && SizeRead(cs, r.header).state == LookingForSync {
        RefusedSize(cs, r, rest);
      } else {
        CommaByte(cs, r, rest);
        HeaderByte(cs, r, c, p.reader, rest);
      }
    }
  }

  // What is in sync is handled as its bytes say, whatever comes behind it.
  lemma {:induction false} InSync(cs: Checksum, r: Reader, a: string, b: string)
    requires Run(cs, r, a).Some?
    ensures var p := Run(cs, r, a).value;
            Handle(cs, r, a + b) == Preceded(p.emitted, Handle(cs, p.reader, b))
    decreases |a|
  {
    if a == "" {
      assert a + b == b;
      PrecededByNothing(Handle(cs, r, b));
    } else {
      var p := NextByte(cs, r, a[0]).value;
      var q := Run(cs, p.reader, a[1..]).value;
      assert a + b == [a[0]] + (a[1..] + b);
      ByteByByte(cs, r, a[0], a[1..] + b);
      InSync(cs, p.reader, a[1..], b);
      hide Handle; hide NextByte;
      PrecededTwice(p.emitted, q.emitted, Handle(cs, q.reader, b));
    }
  }

  // The loop of handleReadyRead does what the bytes say, as long as they keep in sync.
  lemma HandleAgrees(cs: Checksum, r: Reader, input: string)
    requires Run(cs, r, input).Some?
    ensures var p := Run(cs, r, input).value;
            Handle(cs, r, input) == Handled(p.reader, p.emitted, false)
  {
    var p := Run(cs, r, input).value;
    InSync(cs, r, input, "");
    assert input + "" == input && p.emitted + [] == p.emitted;
    assert Handle(cs, p.reader, "") == Handled(p.reader, [], false);
  }

  lemma TwoPieces(cs: Checksum, r: Reader, a: string, b: string)
    requires !Handle(cs, r, a).stuck
    ensures var first := Handle(cs, r, a);
            HandleAll(cs, r, [a, b]) == Preceded(first.emitted, Handle(cs, first.reader, b))
  {
    var first := Handle(cs, r, a);
    var second := Handle(cs, first.reader, b);
    assert [a, b][1..] == [b] && [b][1..] == [];
    assert second.emitted + [] == second.emitted;
    hide Handle;
    assert HandleAll(cs, first.reader, [b]) == second;
  }

  // A cut makes no difference when the bytes before it are in sync, whatever comes behind it.
  lemma CutInSync(cs: Checksum, r: Reader, a: string, b: string)
    requires Run(cs, r, a).Some?
    ensures HandleAll(cs, r, [a, b]) == Handle(cs, r, a + b)
  {
    HandleAgrees(cs, r, a);
    hide Handle; hide HandleAll; hide Run;
    InSync(cs, r, a, b);
    TwoPieces(cs, r, a, b);
  }

  // While in sync it does not matter how the bytes are cut into pieces.
  lemma {:induction false} ChunksDoNotMatter(cs: Checksum, r: Reader, chunks: seq<string>)
    requires Run(cs, r, Joined(chunks)).Some?
    ensures var p := Run(cs, r, Joined(chunks)).value;
            HandleAll(cs, r, chunks) == Handled(p.reader, p.emitted, false)
            == Handle(cs, r, Joined(chunks))
    decreases |chunks|
  {
    HandleAgrees(cs, r, Joined(chunks));
    if chunks != [] {
      RunAppend(cs, r, chunks[0], Joined(chunks[1..]));
      HandleAgrees(cs, r, chunks[0]);
      ChunksDoNotMatter(cs, Run(cs, r, chunks[0]).value.reader, chunks[1..]);
    }
  }
}
