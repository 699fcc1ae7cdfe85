// Whatever bytes arrive, in whatever pieces: a message comes out only where the stream itself
// holds it, after a length and a checksum that were both checked.
module ChecksummedSoundness {
  import opened Wrappers
  import opened Text
  import opened Lists
  import opened ChecksummedFraming
  import opened ChecksummedStreams

  // The stream ends with a checksum of a size, the size, a checksum of the message and the message.
  ghost predicate EndsWithFrame(cs: Checksum, stream: string, message: string)
  {
    exists before, g, size, k :: FrameAtEnd(cs, stream, message, before, g, size, k)
  }

  ghost predicate FrameAtEnd(cs: Checksum, stream: string, message: string, before: string, g: string, size: string, k: string)
  {
    && CommaFree(g + size) && CommaFree(k) && ParseInt(size, 32) == Some(|message|)
    && stream == before + cs(size) + "," + g + size + "," + k + cs(message) + "," + message
  }

  // The messages end at places of the input further and further on.
  ghost predicate AllFramed(cs: Checksum, past: string, input: string, messages: seq<string>)
    decreases |messages|
  {
    messages == [] || exists n :: 0 < n <= |input| && NextFramed(cs, past, input, messages, n)
  }

  ghost predicate NextFramed(cs: Checksum, past: string, input: string, messages: seq<string>, n: nat)
    requires n <= |input| && messages != []
    decreases |messages|, 0
  {
    EndsWithFrame(cs, past + input[..n], messages[0]) && AllFramed(cs, past + input[..n], input[n..], messages[1..])
  }

  // ---------- what the reader knows about the bytes it has seen ----------

  ghost predicate Seen1(stream: string, buffer: string)
  {
    exists before, f :: stream == before + f && CommaFree(f) && buffer == Last(f)
  }

  ghost predicate Seen2(stream: string, h: Header)
  {
    exists before, f :: stream == before + h.checksumOfSize + "," + f && CommaFree(f) && h.buffer == Last(f)
  }

  ghost predicate Seen3(cs: Checksum, stream: string, h: Header)
  {
    && ParseInt(h.sizeString, 32) == Some(h.size)
    && exists before, g, f ::
         && stream == before + cs(h.sizeString) + "," + g + h.sizeString + "," + f
         && CommaFree(g + h.sizeString) && CommaFree(f) && h.buffer == Last(f)
  }

  ghost predicate Seen4(cs: Checksum, stream: string, r: Reader)
  {
    var h := r.header;
    && ParseInt(h.sizeString, 32) == Some(h.size) && |r.message| + r.bytesLeft == h.size
    && exists before, g, k ::
         && stream == before + cs(h.sizeString) + "," + g + h.sizeString + "," + k + h.messageChecksum + "," + r.message
         && CommaFree(g + h.sizeString) && CommaFree(k)
  }

  ghost predicate Traced(cs: Checksum, stream: string, r: Reader)
  {
    if r.haveReadHeader then Seen4(cs, stream, r) && r.header.state == LookingForSync && r.header.buffer == ""
    else
      match r.header.state
      case LookingForSync => |r.header.buffer| <= SIZE_OF_LARGEST_HEADER_COMPONENT
      case ReadingChecksumOfSizeOfData => Seen1(stream, r.header.buffer)
      case ReadingSizeOfData => Seen2(stream, r.header)
      case ReadingChecksumOfData => Seen3(cs, stream, r.header)
  }

  // One field: the buffer keeps showing the end of it.
  lemma FieldSeen(f: string, input: string) returns (field: string)
    requires CommaFree(f)
    ensures CommaFree(f + field)
    ensures var u := UntilComma(Last(f), input);
            && u.buffer == Last(f + field)
            && input == (if u.found then field + "," + u.rest else field)
            && (!u.found ==> u.rest == "")
  {
    var rest, found;
    field, rest, found := CutAtComma(input);
    FieldIs(f, field, rest);
  }

  lemma EndOf(f: string) returns (front: string)
    ensures f == front + Last(f) && (CommaFree(f) ==> CommaFree(front) && CommaFree(front + Last(f)))
  {
    front := f[..|f| - |Last(f)|];
  }

  lemma NothingYet()
    ensures CommaFree("") && Last("") == ""
  {
  }

  // stream == head + f, and the field goes on.
  lemma FieldGoesOn(stream: string, head: string, f: string, field: string)
    requires stream == head + f
    ensures stream + field == head + (f + field)
  {
  }

  lemma FieldEnds(stream: string, head: string, f: string, field: string, front: string, last: string)
    requires stream == head + f && f + field == front + last
    ensures stream + (field + ",") == head + front + last + "," + ""
  {
    assert stream + (field + ",") == head + (f + field) + ",";
    assert head + (front + last) == head + front + last;
  }

  // ---------- the stages of a header ----------

  predicate Consumes(input: string, rest: string, consumed: string)
  {
    input == consumed + rest
  }

  lemma Stage3(cs: Checksum, stream: string, r: Reader, input: string) returns (consumed: string)
    requires !r.haveReadHeader && r.header.state == ReadingChecksumOfData && Seen3(cs, stream, r.header)
    ensures var h := ReadMessageChecksum(r.header, input);
            Consumes(input, h.rest, consumed) && Traced(cs, stream + consumed, Entered(h, r))
  {
    hide ParseInt; hide UntilComma; hide Last; hide CommaFree;
    var h := r.header;
    var before, g, f :| stream == before + cs(h.sizeString) + "," + g + h.sizeString + "," + f
                        && CommaFree(g + h.sizeString) && CommaFree(f) && h.buffer == Last(f);
    var field := FieldSeen(f, input);
    var u := UntilComma(h.buffer, input);
    var head := before + cs(h.sizeString) + "," + g + h.sizeString + ",";
    if u.found {
      consumed := field + ",";
      var k := EndOf(f + field);
      FieldEnds(stream, head, f, field, k, u.buffer);
    } else {
      consumed := field;
      FieldGoesOn(stream, head, f, field);
    }
  }

  lemma ConsumesField(input: string, rest: string, field: string, found: bool)
    requires input == (if found then field + "," + rest else field) && (!found ==> rest == "")
    ensures Consumes(input, rest, if found then field + "," else field)
  {
  }

  lemma ConsumesMore(stream: string, input: string, rest: string, rest': string, consumed: string, more: string)
    requires Consumes(input, rest, consumed) && Consumes(rest, rest', more)
    ensures Consumes(input, rest', consumed + more) && stream + (consumed + more) == stream + consumed + more
  {
  }

  lemma Stage2(cs: Checksum, stream: string, r: Reader, input: string) returns (consumed: string)
    requires !r.haveReadHeader && r.header.state == ReadingSizeOfData && Seen2(stream, r.header)
    ensures var h := ReadSize(cs, r.header, input);
            Consumes(input, h.rest, consumed) && Traced(cs, stream + consumed, Entered(h, r))
  {
    hide ParseInt; hide UntilComma; hide Last; hide CommaFree; hide Seen3; hide ReadMessageChecksum; hide Seen4; hide Seen1;
    hide Traced; hide Consumes;
    var h := r.header;
    var before, f :| stream == before + h.checksumOfSize + "," + f && CommaFree(f) && h.buffer == Last(f);
    var field := FieldSeen(f, input);
    var u := UntilComma(h.buffer, input);
    var head := before + h.checksumOfSize + ",";
    if !u.found {
      consumed := field;
      ConsumesField(input, u.rest, field, false);
      FieldGoesOn(stream, head, f, field);
      StillReadingSize(cs, stream + consumed, r.(header := h.(buffer := u.buffer)), before, f + field);
    } else {
      consumed := field + ",";
      ConsumesField(input, u.rest, field, true);
      var n := ParseInt(u.buffer, 32);
      BufferFits(f + field);
      if n.Some? && cs(u.buffer) == h.checksumOfSize {
        var h' := h.(buffer := "", size := n.value, sizeString := u.buffer, state := ReadingChecksumOfData);
        var g := EndOf(f + field);
        FieldEnds(stream, head, f, field, g, u.buffer);
        SizeSeen(cs, stream + consumed, h', before, g);
        var more := Stage3(cs, stream + consumed, r.(header := h'), u.rest);
        ConsumesMore(stream, input, u.rest, ReadMessageChecksum(h', u.rest).rest, consumed, more);
        consumed := consumed + more;
      } else {
        NothingYet();
        StartingAgain(cs, stream + consumed, Entered(ReadSize(cs, h, input), r));
      }
    }
  }

  lemma StillReadingSize(cs: Checksum, stream: string, r: Reader, before: string, f: string)
    requires !r.haveReadHeader && r.header.state == ReadingSizeOfData
    requires stream == before + r.header.checksumOfSize + "," + f && CommaFree(f) && r.header.buffer == Last(f)
    ensures Traced(cs, stream, r)
  {
  }

  lemma StillReadingChecksum(cs: Checksum, stream: string, r: Reader, before: string, f: string)
    requires !r.haveReadHeader && r.header.state in {LookingForSync, ReadingChecksumOfSizeOfData}
    requires stream == before + f && CommaFree(f) && r.header.buffer == Last(f)
    ensures Traced(cs, stream, r)
  {
  }

  lemma StartingAgain(cs: Checksum, stream: string, r: Reader)
    requires !r.haveReadHeader && r.header.state == LookingForSync && |r.header.buffer| <= SIZE_OF_LARGEST_HEADER_COMPONENT
    ensures Traced(cs, stream, r)
  {
  }

  lemma BufferFits(f: string)
    ensures |Last(f)| <= SIZE_OF_LARGEST_HEADER_COMPONENT
  {
  }

  lemma SizeSeen(cs: Checksum, stream: string, h: Header, before: string, g: string)
    requires ParseInt(h.sizeString, 32) == Some(h.size) && CommaFree(g + h.sizeString) && h.buffer == ""
    requires stream == before + cs(h.sizeString) + "," + g + h.sizeString + "," + ""
    ensures Seen3(cs, stream, h)
  {
    hide ParseInt;
    NothingYet();
  }

  lemma ChecksumSeen(stream: string, h: Header, before: string)
    requires stream == before + h.checksumOfSize + "," + "" && h.buffer == ""
    ensures Seen2(stream, h)
  {
    NothingYet();
  }

  lemma Stage1(cs: Checksum, stream: string, r: Reader, f: string, input: string) returns (consumed: string)
    requires !r.haveReadHeader && r.header.state in {LookingForSync, ReadingChecksumOfSizeOfData}
    requires CommaFree(f) && EndsWith(stream, f) && r.header.buffer == Last(f)
    ensures var h := ReadChecksumOfSize(cs, r.header, input);
            Consumes(input, h.rest, consumed) && Traced(cs, stream + consumed, Entered(h, r))
  {
    hide ParseInt; hide UntilComma; hide Last; hide CommaFree; hide Seen2; hide Seen3; hide Seen4; hide ReadSize;
    hide Traced; hide Consumes;
    var before := stream[..|stream| - |f|];
    assert stream == before + f;
    var field := FieldSeen(f, input);
    var u := UntilComma(r.header.buffer, input);
    BufferFits(f + field);
    if !u.found {
      consumed := field;
      ConsumesField(input, u.rest, field, false);
      FieldGoesOn(stream, before, f, field);
      StillReadingChecksum(cs, stream + consumed, r.(header := r.header.(buffer := u.buffer)), before, f + field);
    } else {
      consumed := field + ",";
      ConsumesField(input, u.rest, field, true);
      var h' := r.header.(checksumOfSize := u.buffer, buffer := "", state := ReadingSizeOfData);
      var g := EndOf(f + field);
      FieldEnds(stream, before, f, field, g, u.buffer);
      ChecksumSeen(stream + consumed, h', before + g);
      var more := Stage2(cs, stream + consumed, r.(header := h'), u.rest);
      ConsumesMore(stream, input, u.rest, ReadSize(cs, h', u.rest).rest, consumed, more);
      consumed := consumed + more;
    }
  }

  lemma Stage0(cs: Checksum, stream: string, r: Reader, input: string) returns (consumed: string)
    requires !r.haveReadHeader && r.header.state == LookingForSync
    requires |r.header.buffer| <= SIZE_OF_LARGEST_HEADER_COMPONENT
    ensures var h := ReadSync(cs, r.header, input);
            Consumes(input, h.rest, consumed) && Traced(cs, stream + consumed, Entered(h, r))
  {
    hide ParseInt; hide UntilComma; hide CommaFree; hide Seen1; hide Seen2; hide Seen3; hide Seen4; hide ReadChecksumOfSize;
    hide Consumes;
    assert Last(r.header.buffer) == r.header.buffer;
    var field, rest, found := CutAtComma(input);
    FieldIs(r.header.buffer, field, rest);
    var u := UntilComma(r.header.buffer, input);
    NothingYet();
    if !u.found {
      consumed := field;
      ConsumesField(input, u.rest, field, false);
    } else {
      consumed := field + ",";
      ConsumesField(input, u.rest, field, true);
      var h' := r.header.(buffer := "", state := if EndsWith(u.buffer, SYNC) then ReadingChecksumOfSizeOfData else LookingForSync);
      var more := Stage1(cs, stream + consumed, r.(header := h'), "", u.rest);
      ConsumesMore(stream, input, u.rest, ReadChecksumOfSize(cs, h', u.rest).rest, consumed, more);
      consumed := consumed + more;
    }
  }

  lemma HeaderTraced(cs: Checksum, stream: string, r: Reader, input: string) returns (consumed: string)
    requires !r.haveReadHeader && Traced(cs, stream, r)
    ensures var h := ReadHeader(cs, r.header, input);
            Consumes(input, h.rest, consumed) && Traced(cs, stream + consumed, Entered(h, r))
  {
    hide ParseInt; hide Seen2; hide Seen3;
    match r.header.state {
      case LookingForSync => consumed := Stage0(cs, stream, r, input);
      case ReadingChecksumOfSizeOfData =>
        var before, f :| stream == before + f && CommaFree(f) && r.header.buffer == Last(f);
        consumed := Stage1(cs, stream, r, f, input);
      case ReadingSizeOfData => consumed := Stage2(cs, stream, r, input);
      case ReadingChecksumOfData => consumed := Stage3(cs, stream, r, input);
    }
  }

  // ---------- the body ----------

  lemma BodyTraced(cs: Checksum, stream: string, r: Reader, input: string) returns (consumed: string)
    requires r.haveReadHeader && Traced(cs, stream, r)
    ensures var m := ReadBody(cs, r, input);
            && Consumes(input, m.rest, consumed) && Traced(cs, stream + consumed, m.reader)
            && (m.message.Some? ==> EndsWithFrame(cs, stream + consumed, m.message.value))
  {
    hide ParseInt;
    var m := ReadBody(cs, r, input);
    var n := if r.bytesLeft < |input| then r.bytesLeft else |input|;
    if n < 1 {
      consumed := "";
      assert stream + "" == stream;
    } else {
      consumed := input[..n];
      var h := r.header;
      var before, g, k :| stream == before + cs(h.sizeString) + "," + g + h.sizeString + "," + k + h.messageChecksum + "," + r.message
                          && CommaFree(g + h.sizeString) && CommaFree(k);
      assert stream + consumed
             == before + cs(h.sizeString) + "," + g + h.sizeString + "," + k + h.messageChecksum + "," + (r.message + consumed);
      if m.message.Some? {
        assert FrameAtEnd(cs, stream + consumed, m.message.value, before, g, h.sizeString, k);
      }
    }
  }

  lemma MessageTraced(cs: Checksum, stream: string, r: Reader, input: string) returns (consumed: string)
    requires Traced(cs, stream, r)
    ensures var m := ReadMessage(cs, r, input);
            && Consumes(input, m.rest, consumed) && Traced(cs, stream + consumed, m.reader)
            && (m.message.Some? ==> EndsWithFrame(cs, stream + consumed, m.message.value))
  {
    hide Traced; hide ReadHeader; hide ReadBody; hide EndsWithFrame;
    if r.haveReadHeader {
      consumed := BodyTraced(cs, stream, r, input);
    } else {
      var h := ReadHeader(cs, r.header, input);
      consumed := HeaderTraced(cs, stream, r, input);
      if h.complete {
        var more := BodyTraced(cs, stream + consumed, Entered(h, r), h.rest);
        assert stream + (consumed + more) == stream + consumed + more;
        consumed := consumed + more;
      }
    }
  }

  // ---------- all bytes, all pieces ----------

  // A message that ends there, and the rest of the messages.
  lemma FramedNext(cs: Checksum, past: string, input: string, messages: seq<string>, n: nat)
    requires 0 < n <= |input| && messages != [] && NextFramed(cs, past, input, messages, n)
    ensures AllFramed(cs, past, input, messages)
  {
  }

  lemma Later(cs: Checksum, past: string, step: string, input: string, messages: seq<string>)
    requires AllFramed(cs, past + step, input, messages)
    ensures AllFramed(cs, past, step + input, messages)
  {
    if messages != [] {
      var n :| 0 < n <= |input| && NextFramed(cs, past + step, input, messages, n);
      MovedOn(past, step, input, n);
      assert NextFramed(cs, past, step + input, messages, |step| + n) by { hide AllFramed; hide EndsWithFrame; }
      hide AllFramed; hide NextFramed;
      FramedNext(cs, past, step + input, messages, |step| + n);
    }
  }

  lemma MovedOn(past: string, step: string, input: string, n: nat)
    requires n <= |input|
    ensures past + (step + input)[..|step| + n] == past + step + input[..n]
    ensures (step + input)[|step| + n..] == input[n..]
  {
  }

  lemma {:induction false} HandleTraced(cs: Checksum, past: string, r: Reader, input: string)
    requires Traced(cs, past, r)
    ensures var h := Handle(cs, r, input);
            AllFramed(cs, past, input, h.emitted) && (!h.stuck ==> Traced(cs, past + input, h.reader))
    decreases |input|
  {
    hide Traced; hide ReadMessage; hide EndsWithFrame;
    if input == "" {
      assert past + input == past;
    } else {
      var m := ReadMessage(cs, r, input);
      var consumed := MessageTraced(cs, past, r, input);
      if |m.rest| < |input| {
        HandleTraced(cs, past + consumed, m.reader, m.rest);
        assert past + consumed + m.rest == past + input;
        var emitted := Handle(cs, m.reader, m.rest).emitted;
        if m.message.None? {
          assert [] + emitted == emitted;
          Later(cs, past, consumed, m.rest, emitted);
        } else {
          var all := [m.message.value] + emitted;
          assert input[..|consumed|] == consumed && input[|consumed|..] == m.rest && all[1..] == emitted;
          assert NextFramed(cs, past, input, all, |consumed|);
        }
      }
    }
  }

  lemma {:induction false} Together(cs: Checksum, past: string, a: string, b: string, m: seq<string>, n: seq<string>)
    requires AllFramed(cs, past, a, m) && AllFramed(cs, past + a, b, n)
    ensures AllFramed(cs, past, a + b, m + n)
    decreases |m|
  {
    if m == [] {
      assert m + n == n;
      hide AllFramed;
      Later(cs, past, a, b, n);
    } else {
      var k :| 0 < k <= |a| && NextFramed(cs, past, a, m, k);
      hide AllFramed; hide EndsWithFrame;
      assert past + a[..k] + a[k..] == past + a;
      Together(cs, past + a[..k], a[k..], b, m[1..], n);
      CutFront(a, b, m, n, k);
      hide NextFramed;
      assert NextFramed(cs, past, a + b, m + n, k) by { NextTogether(cs, past, a, b, m, n, k); }
      FramedNext(cs, past, a + b, m + n, k);
    }
  }

  lemma CutFront(a: string, b: string, m: seq<string>, n: seq<string>, k: nat)
    requires k <= |a| && m != []
    ensures (a + b)[..k] == a[..k] && (a + b)[k..] == a[k..] + b && (m + n)[1..] == m[1..] + n
  {
  }

  lemma NextTogether(cs: Checksum, past: string, a: string, b: string, m: seq<string>, n: seq<string>, k: nat)
    requires k <= |a| && m != [] && NextFramed(cs, past, a, m, k) && AllFramed(cs, past + a[..k], a[k..] + b, m[1..] + n)
    ensures NextFramed(cs, past, a + b, m + n, k)
  {
    hide AllFramed; hide EndsWithFrame;
    CutFront(a, b, m, n, k);
  }

  lemma {:induction false} PiecesTraced(cs: Checksum, past: string, r: Reader, chunks: seq<string>)
    requires Traced(cs, past, r)
    ensures AllFramed(cs, past, Joined(chunks), HandleAll(cs, r, chunks).emitted)
    decreases |chunks|
  {
    hide Traced; hide Handle; hide EndsWithFrame;
    if chunks != [] {
      HandleTraced(cs, past, r, chunks[0]);
      var first := Handle(cs, r, chunks[0]);
      if first.stuck {
        assert AllFramed(cs, past + chunks[0], Joined(chunks[1..]), []);
        Together(cs, past, chunks[0], Joined(chunks[1..]), first.emitted, []);
        assert first.emitted + [] == first.emitted;
      } else {
        PiecesTraced(cs, past + chunks[0], first.reader, chunks[1..]);
        Together(cs, past, chunks[0], Joined(chunks[1..]), first.emitted, HandleAll(cs, first.reader, chunks[1..]).emitted);
      }
    }
  }

  lemma EveryMessageWasFramed(cs: Checksum, chunks: seq<string>)
    ensures AllFramed(cs, "", Joined(chunks), HandleAll(cs, INITIAL, chunks).emitted)
  {
    PiecesTraced(cs, "", INITIAL, chunks);
  }
}
