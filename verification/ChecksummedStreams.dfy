// What the checksummed reader delivers: all of a well formed stream, cut into pieces at will,
// with damage confined to the frame it hits; and on any bytes at all nothing that was not
// framed with both checksums.
module ChecksummedStreams {
  import opened Wrappers
  import opened Text
  import opened Lists
  import opened ChecksummedFraming

  // ---------- the header buffer: the last at most 32 characters since it was cleared ----------

  function Last(s: string): string
  {
    if |s| > 32 then s[|s| - 32..] else s
  }

  predicate CommaFree(s: string) { ',' !in s }

  lemma SlideIsLast(s: string, c: char)
    ensures Slide(Last(s), c) == Last(s + [c])
  {
  }

  // The input cut at its first comma.
  lemma FieldIs(s: string, field: string, rest: string)
    requires CommaFree(field)
    ensures UntilComma(Last(s), field + "," + rest) == Field(true, Last(s + field), rest)
    ensures UntilComma(Last(s), field) == Field(false, Last(s + field), "")
  {
    FieldUpTo(s, field, "," + rest);
    FieldUpTo(s, field, "");
    assert ("," + rest)[1..] == rest && field + "" == field && field + "," + rest == field + ("," + rest);
  }

  // A field that fits, read into an empty buffer.
  lemma FirstFieldIs(field: string, rest: string)
    requires CommaFree(field) && |field| <= SIZE_OF_LARGEST_HEADER_COMPONENT
    ensures UntilComma("", field + "," + rest) == Field(true, field, rest)
    ensures UntilComma("", field) == Field(false, field, "")
  {
    assert "" + field == field;
    FieldIs("", field, rest);
  }

  lemma {:induction false} FieldUpTo(s: string, field: string, rest: string)
    requires CommaFree(field)
    ensures UntilComma(Last(s), field + rest) == UntilComma(Last(s + field), rest)
    decreases |field|
  {
    hide Last; hide Slide;
    if field == "" {
      assert field + rest == rest && s + field == s;
    } else {
      SlideIsLast(s, field[0]);
      FieldUpTo(s + [field[0]], field[1..], rest);
      assert (field + rest)[1..] == field[1..] + rest;
      assert s + [field[0]] + field[1..] == s + field;
    }
  }

  lemma {:induction false} CutAtComma(input: string) returns (field: string, rest: string, found: bool)
    ensures CommaFree(field)
    ensures found ==> input == field + "," + rest
    ensures !found ==> input == field && rest == ""
    decreases |input|
  {
    if input == "" {
      field, rest, found := "", "", false;
    } else if input[0] == ',' {
      field, rest, found := "", input[1..], true;
    } else {
      field, rest, found := CutAtComma(input[1..]);
      field := [input[0]] + field;
    }
  }

  // ---------- frames ----------

  function FrameHead(cs: Checksum, message: string): string
  {
    "SYNC" + "," + (cs(IntToString(|message|)) + "," + (IntToString(|message|) + "," + (cs(message) + ",")))
  }

  function Frame(cs: Checksum, message: string): string
  {
    FrameHead(cs, message) + message
  }

  // A frame as it may arrive, with characters without a comma before it: with a body of the declared
  // length that is not necessarily the one that was sent, or a head that breaks off behind a size
  // that is refused.
  datatype Arrival = Arrival(junk: string, sent: string, body: string)
                   | BadHead(junk: string, checksum: string, size: string)

  // The reader goes by the last 32 characters of each field.
  predicate Refused(cs: Checksum, checksum: string, size: string)
  {
    ParseInt(Last(size), 32).None? || cs(Last(size)) != Last(checksum)
  }

  predicate Acceptable(cs: Checksum, a: Arrival)
  {
    && CommaFree(a.junk)
    && match a
       case Arrival(_, sent, body) => |body| == |sent| && 0 < |sent| < 0x8000_0000
       case BadHead(_, checksum, size) => CommaFree(checksum) && CommaFree(size) && Refused(cs, checksum, size)
  }

  function ArrivalText(cs: Checksum, a: Arrival): string
  {
    match a
    case Arrival(junk, sent, body) => junk + FrameHead(cs, sent) + body
    case BadHead(junk, checksum, size) => junk + BadHeadText(checksum, size)
  }

  function BadHeadText(checksum: string, size: string): string
  {
    "SYNC" + "," + (checksum + "," + (size + ","))
  }

  function StreamText(cs: Checksum, arrivals: seq<Arrival>): string
  {
    if arrivals == [] then "" else ArrivalText(cs, arrivals[0]) + StreamText(cs, arrivals[1..])
  }

  // Only the damaged frames are missing.
  function Delivered(cs: Checksum, arrivals: seq<Arrival>): seq<string>
  {
    if arrivals == [] then []
    else
      var rest := Delivered(cs, arrivals[1..]);
      DeliveredOf(cs, arrivals[0]) + rest
  }

  function DeliveredOf(cs: Checksum, a: Arrival): seq<string>
  {
    match a
    case Arrival(_, sent, body) => if cs(body) == cs(sent) then [body] else []
    case BadHead(_, _, _) => []
  }

  ghost predicate Ready(r: Reader)
  {
    r.header.state == LookingForSync && !r.haveReadHeader && |r.header.buffer| <= SIZE_OF_LARGEST_HEADER_COMPONENT
  }

  // One field and its comma, while a header is read.
  lemma FieldRuns(cs: Checksum, r: Reader, field: string, rest: string)
    requires !r.haveReadHeader && |r.header.buffer| <= SIZE_OF_LARGEST_HEADER_COMPONENT && CommaFree(field)
    ensures Run(cs, r, field + "," + rest)
            == match NextByte(cs, r.(header := r.header.(buffer := Last(r.header.buffer + field))), ',')
               case None => None
               case Some(p) => Run(cs, p.reader, rest)
  {
    FieldIs(r.header.buffer, field, rest);
    FieldAgrees(cs, r, field + "," + rest);
    CommaAgrees(cs, r.(header := r.header.(buffer := Last(r.header.buffer + field))), rest);
  }

  lemma {:induction false} BodyRuns(cs: Checksum, r: Reader, body: string)
    requires r.haveReadHeader && r.bytesLeft == |body| > 0
    ensures var message := r.message + body;
            Run(cs, r, body) == Some(Progress(r.(message := message, bytesLeft := 0, haveReadHeader := false),
                                              if cs(message) == r.header.messageChecksum then [message] else []))
    decreases |body|
  {
    hide ParseInt;
    var p := NextByte(cs, r, body[0]).value;
    assert r.message + [body[0]] + body[1..] == r.message + body;
    if |body| == 1 {
      assert body[1..] == "" && body == [body[0]];
      assert p.emitted + [] == p.emitted;
    } else {
      BodyRuns(cs, p.reader, body[1..]);
      NothingBefore(Run(cs, p.reader, body[1..]));
    }
  }

  lemma NumberHasNoComma(n: nat)
    requires n < 0x8000_0000
    ensures CommaFree(IntToString(n)) && |IntToString(n)| <= 10 && ParseInt(IntToString(n), 32) == Some(n)
  {
    ParseIntOfNumber(n, 32);
    NumberLength(n, 10, 10000000000);
  }

  lemma {:induction false} NumberLength(n: nat, digits: nat, limit: nat)
    requires digits > 0 && n < limit && limit == PowerOfTen(digits)
    ensures |NatToString(n)| <= digits
    decreases digits
  {
    if digits > 1 && n >= 10 {
      NumberLength(n / 10, digits - 1, PowerOfTen(digits - 1));
    }
  }

  function PowerOfTen(k: nat): nat { if k == 0 then 1 else 10 * PowerOfTen(k - 1) }

  lemma SyncRuns(cs: Checksum, r: Reader, junk: string, rest: string)
    requires Ready(r) && CommaFree(junk)
    ensures Run(cs, r, junk + SYNC + "," + rest)
            == Run(cs, r.(header := r.header.(buffer := "", state := ReadingChecksumOfSizeOfData)), rest)
  {
    FieldRuns(cs, r, junk + SYNC, rest);
    assert EndsWith(Last(r.header.buffer + (junk + SYNC)), SYNC);
  }

  // A field that fits the buffer, read into an empty one.
  lemma FittingFieldRuns(cs: Checksum, r: Reader, field: string, rest: string)
    requires !r.haveReadHeader && r.header.buffer == "" && CommaFree(field) && |field| <= SIZE_OF_LARGEST_HEADER_COMPONENT
    ensures Run(cs, r, field + "," + rest) == match NextByte(cs, r.(header := r.header.(buffer := field)), ',')
                                              case None => None
                                              case Some(p) => Run(cs, p.reader, rest)
  {
    assert "" + field == field;
    FieldRuns(cs, r, field, rest);
  }

  lemma ChecksumsFit(cs: Checksum, s: string)
    requires IsChecksum(cs)
    ensures CommaFree(cs(s)) && |cs(s)| == SIZE_OF_LARGEST_HEADER_COMPONENT
  {
  }

  // Whatever is left in the buffer, junk without a comma and a head lead to the body.
  lemma HeadRuns(cs: Checksum, r: Reader, junk: string, sent: string, rest: string)
    requires IsChecksum(cs) && Ready(r) && CommaFree(junk) && |sent| < 0x8000_0000
    ensures var number := IntToString(|sent|);
            Run(cs, r, junk + FrameHead(cs, sent) + rest)
            == Run(cs, Reader(Header(LookingForSync, "", cs(number), |sent|, number, cs(sent)), true, |sent|, ""), rest)
  {
    hide Run; hide ParseInt; hide IntToString; hide CommaFree;
    var number := IntToString(|sent|);
    NumberHasNoComma(|sent|);
    ChecksumsFit(cs, number);
    ChecksumsFit(cs, sent);
    var input3 := cs(sent) + "," + rest;
    var input2 := number + "," + input3;
    var input1 := cs(number) + "," + input2;
    assert junk + FrameHead(cs, sent) + rest == junk + SYNC + "," + input1;
    SyncRuns(cs, r, junk, input1);
    var r1 := r.(header := r.header.(buffer := "", state := ReadingChecksumOfSizeOfData));
    FittingFieldRuns(cs, r1, cs(number), input2);
    var r2 := r1.(header := r1.header.(checksumOfSize := cs(number), state := ReadingSizeOfData));
    FittingFieldRuns(cs, r2, number, input3);
    var r3 := r2.(header := r2.header.(size := |sent|, sizeString := number, state := ReadingChecksumOfData));
    FittingFieldRuns(cs, r3, cs(sent), rest);
  }

  lemma ArrivalRuns(cs: Checksum, r: Reader, a: Arrival)
    requires IsChecksum(cs) && Ready(r) && Acceptable(cs, a)
    ensures var p := Run(cs, r, ArrivalText(cs, a));
            p.Some? && Ready(p.value.reader) && p.value.emitted == DeliveredOf(cs, a)
  {
    match a {
      case Arrival(junk, sent, body) =>
        HeadRuns(cs, r, junk, sent, body);
        var number := IntToString(|sent|);
        BodyRuns(cs, Reader(Header(LookingForSync, "", cs(number), |sent|, number, cs(sent)), true, |sent|, ""), body);
        assert "" + body == body;
      case BadHead(junk, checksum, size) =>
        var q := BadHeadRuns(cs, r, junk, checksum, size, "");
        hide BadHeadText; hide Run;
        assert junk + BadHeadText(checksum, size) + "" == junk + BadHeadText(checksum, size);
    }
  }

  // A refused size leaves the reader looking for the next SYNC, with the size still in front of it
  // if it is no number.
  lemma BadHeadRuns(cs: Checksum, r: Reader, junk: string, checksum: string, size: string, rest: string) returns (q: Reader)
    requires Ready(r) && CommaFree(junk) && CommaFree(checksum) && CommaFree(size) && Refused(cs, checksum, size)
    ensures Ready(q) && q.header.buffer == if ParseInt(Last(size), 32).None? then Last(size) else ""
    ensures Run(cs, r, junk + BadHeadText(checksum, size) + rest) == Run(cs, q, rest)
  {
    hide Run; hide ParseInt; hide CommaFree;
    var input2 := size + "," + rest;
    var input1 := checksum + "," + input2;
    assert junk + BadHeadText(checksum, size) + rest == junk + SYNC + "," + input1;
    SyncRuns(cs, r, junk, input1);
    var r1 := r.(header := r.header.(buffer := "", state := ReadingChecksumOfSizeOfData));
    EmptyFieldRuns(cs, r1, checksum, input2);
    var r2 := r1.(header := r1.header.(checksumOfSize := Last(checksum), state := ReadingSizeOfData));
    EmptyFieldRuns(cs, r2, size, rest);
    q := r2.(header := SizeRead(cs, r2.header.(buffer := Last(size))));
  }

  lemma EmptyFieldRuns(cs: Checksum, r: Reader, field: string, rest: string)
    requires !r.haveReadHeader && r.header.buffer == "" && CommaFree(field)
    ensures Run(cs, r, field + "," + rest) == match NextByte(cs, r.(header := r.header.(buffer := Last(field))), ',')
                                              case None => None
                                              case Some(p) => Run(cs, p.reader, rest)
  {
    assert "" + field == field;
    FieldRuns(cs, r, field, rest);
  }

  // What is left of a refused size counts as part of the field behind it, so that field is taken for
  // SYNC, and the reader stays in sync, if and only if the joined text ends in it.
  lemma InSyncBehindBadSizeIff(cs: Checksum, r: Reader, junk: string, checksum: string, size: string, field: string)
    requires Ready(r) && CommaFree(junk) && CommaFree(checksum) && CommaFree(size) && Refused(cs, checksum, size)
    requires CommaFree(field)
    ensures Run(cs, r, junk + BadHeadText(checksum, size) + (field + ",")).Some?
            <==> EndsWith(if ParseInt(Last(size), 32).None? then size + field else field, "SYNC")
  {
    var q := BadHeadRuns(cs, r, junk, checksum, size, field + ",");
    assert field + "," + "" == field + ",";
    FieldRuns(cs, q, field, "");
    var buffer := if ParseInt(Last(size), 32).None? then Last(size) else "";
    hide Refused; hide ParseInt; hide BadHeadText; hide CommaFree;
    LastOfLast(size, field);
    assert "" + field == field;
    SyncAtTheEnd(size + field);
    SyncAtTheEnd(field);
    var joined := Last(buffer + field);
    var p := NextByte(cs, q.(header := q.header.(buffer := joined)), ',');
    assert p.Some? <==> EndsWith(joined, SYNC);
    if p.Some? { assert Run(cs, p.value.reader, "").Some?; }
  }

  lemma LastOfLast(s: string, t: string)
    ensures Last(Last(s) + t) == Last(s + t)
  {
    if |s| > 32 {
      assert s + t == s[..|s| - 32] + (Last(s) + t);
    }
  }

  lemma SyncAtTheEnd(s: string)
    ensures EndsWith(Last(s), SYNC) <==> EndsWith(s, "SYNC")
  {
    if |s| > 32 {
      assert Last(s)[28..] == s[|s| - 4..];
    }
  }

  lemma {:induction false} StreamRuns(cs: Checksum, r: Reader, arrivals: seq<Arrival>)
    requires IsChecksum(cs) && Ready(r) && forall a | a in arrivals :: Acceptable(cs, a)
    ensures var p := Run(cs, r, StreamText(cs, arrivals));
            p.Some? && Ready(p.value.reader) && p.value.emitted == Delivered(cs, arrivals)
    decreases |arrivals|
  {
    if arrivals != [] {
      ArrivalRuns(cs, r, arrivals[0]);
      var first := Run(cs, r, ArrivalText(cs, arrivals[0])).value;
      StreamRuns(cs, first.reader, arrivals[1..]);
      RunAppend(cs, r, ArrivalText(cs, arrivals[0]), StreamText(cs, arrivals[1..]));
    }
  }

  // Any stream of frames, junk without commas before them, bodies damaged on the way and heads with
  // a size that is refused, in any pieces: exactly the intact bodies come out, in order, and the reader is ready for the next frame.
  lemma DamageIsConfined(cs: Checksum, arrivals: seq<Arrival>, chunks: seq<string>)
    requires IsChecksum(cs) && Joined(chunks) == StreamText(cs, arrivals)
    requires forall a | a in arrivals :: Acceptable(cs, a)
    ensures var h := HandleAll(cs, INITIAL, chunks);
            h.emitted == Delivered(cs, arrivals) && Ready(h.reader) && !h.stuck
  {
    StreamRuns(cs, INITIAL, arrivals);
    ChunksDoNotMatter(cs, INITIAL, chunks);
  }

  function Framed(cs: Checksum, messages: seq<string>): string
  {
    if messages == [] then "" else Frame(cs, messages[0]) + Framed(cs, messages[1..])
  }

  // The round trip, for every way the bytes may be cut.
  lemma FramesComeBack(cs: Checksum, messages: seq<string>, chunks: seq<string>)
    requires IsChecksum(cs) && Joined(chunks) == Framed(cs, messages)
    requires forall m | m in messages :: 0 < |m| < 0x8000_0000
    ensures var h := HandleAll(cs, INITIAL, chunks);
            h.emitted == messages && Ready(h.reader) && !h.stuck
  {
    var arrivals := seq(|messages|, i requires 0 <= i < |messages| => Arrival("", messages[i], messages[i]));
    IntactStream(cs, messages, arrivals);
    DamageIsConfined(cs, arrivals, chunks);
  }

  lemma {:induction false} IntactStream(cs: Checksum, messages: seq<string>, arrivals: seq<Arrival>)
    requires |arrivals| == |messages|
    requires forall i | 0 <= i < |messages| :: arrivals[i] == Arrival("", messages[i], messages[i])
    ensures StreamText(cs, arrivals) == Framed(cs, messages) && Delivered(cs, arrivals) == messages
    decreases |messages|
  {
    if messages != [] {
      IntactStream(cs, messages[1..], arrivals[1..]);
      assert "" + FrameHead(cs, messages[0]) == FrameHead(cs, messages[0]);
      assert [messages[0]] + messages[1..] == messages;
    }
  }

  // ---------- messages that are empty ----------

  ghost predicate Stalled(r: Reader) { r.haveReadHeader && r.bytesLeft < 1 }

  // Two ways to cut a string.
  lemma CutTwice(a: string, b: string, c: string, d: string)
    requires a + b == c + d
    ensures |c| <= |a| ==> a == c + a[|c|..] && d == a[|c|..] + b
    ensures |c| > |a| ==> c == a + c[|a|..] && b == c[|a|..] + d && b != ""
  {
    var all := a + b;
    assert a == all[..|a|] && b == all[|a|..] && c == all[..|c|] && d == all[|c|..];
  }

  lemma FirstPiece(cs: Checksum, r: Reader, chunks: seq<string>)
    requires chunks != []
    ensures var first := Handle(cs, r, chunks[0]);
            HandleAll(cs, r, chunks) == if first.stuck then first
                                        else Preceded(first.emitted, HandleAll(cs, first.reader, chunks[1..]))
  {
    hide Handle;
  }

  // Once a body of no bytes is awaited, the next byte is one too many.
  lemma {:induction false} Stalls(cs: Checksum, r: Reader, a: string, b: string, chunks: seq<string>)
    requires Run(cs, r, a).Some? && Stalled(Run(cs, r, a).value.reader) && Joined(chunks) == a + b
    ensures var h := HandleAll(cs, r, chunks);
            h.emitted == Run(cs, r, a).value.emitted && (h.stuck <==> b != "")
    decreases |chunks|
  {
    if chunks != [] {
      var p, c := Run(cs, r, a).value, chunks[0];
      CutTwice(a, b, c, Joined(chunks[1..]));
      FirstPiece(cs, r, chunks);
      hide Handle; hide Stalled; hide Joined; hide HandleAll;
      if |c| <= |a| {
        var rest := a[|c|..];
        RunAppend(cs, r, c, rest);
        hide Run;
        HandleAgrees(cs, r, c);
        Stalls(cs, Run(cs, r, c).value.reader, rest, b, chunks[1..]);
      } else {
        hide Run;
        InSync(cs, r, a, c[|a|..]);
        NeverEnds(cs, p.reader, c[|a|..]);
        assert p.emitted + [] == p.emitted;
      }
    }
  }

  lemma NeverEnds(cs: Checksum, r: Reader, input: string)
    requires Stalled(r) && input != ""
    ensures Handle(cs, r, input) == Handled(r, [], true)
  {
  }

  lemma {:induction false} FramedAppend(cs: Checksum, a: seq<string>, b: seq<string>)
    ensures Framed(cs, a + b) == Framed(cs, a) + Framed(cs, b)
    decreases |a|
  {
    if a == [] {
      assert a + b == b && "" + Framed(cs, b) == Framed(cs, b);
    } else {
      assert (a + b)[1..] == a[1..] + b;
      FramedAppend(cs, a[1..], b);
      hide Frame;
      assert Frame(cs, a[0]) + (Framed(cs, a[1..]) + Framed(cs, b)) == Frame(cs, a[0]) + Framed(cs, a[1..]) + Framed(cs, b);
    }
  }

  // The messages before an empty one, and its head.
  lemma RunsUpToEmpty(cs: Checksum, messages: seq<string>) returns (a: string)
    requires IsChecksum(cs) && forall m | m in messages :: 0 < |m| < 0x8000_0000
    ensures a == Framed(cs, messages) + FrameHead(cs, "")
    ensures var p := Run(cs, INITIAL, a);
            p.Some? && p.value.emitted == messages && Stalled(p.value.reader)
  {
    a := Framed(cs, messages) + FrameHead(cs, "");
    var arrivals := seq(|messages|, i requires 0 <= i < |messages| => Arrival("", messages[i], messages[i]));
    IntactStream(cs, messages, arrivals);
    StreamRuns(cs, INITIAL, arrivals);
    HeadOfEmptyRuns(cs, Run(cs, INITIAL, Framed(cs, messages)).value.reader);
    hide *;
    RunAppend(cs, INITIAL, Framed(cs, messages), FrameHead(cs, ""));
    AfterNothing(messages, Run(cs, Run(cs, INITIAL, Framed(cs, messages)).value.reader, FrameHead(cs, "")));
  }

  lemma HeadOfEmptyRuns(cs: Checksum, r: Reader)
    requires IsChecksum(cs) && Ready(r)
    ensures var p := Run(cs, r, FrameHead(cs, ""));
            p.Some? && p.value.emitted == [] && Stalled(p.value.reader)
  {
    hide FrameHead; hide IsChecksum;
    assert "" + FrameHead(cs, "") + "" == FrameHead(cs, "");
    HeadRuns(cs, r, "", "", "");
  }

  lemma AfterNothing(emitted: seq<string>, p: Option<Progress>)
    requires p.Some? && p.value.emitted == []
    ensures After(emitted, p) == Some(Progress(p.value.reader, emitted))
  {
    assert emitted + [] == emitted;
  }

  // The first empty message, if there is one.
  function FirstEmpty(messages: seq<string>): (k: nat)
    ensures k <= |messages| && (forall i | 0 <= i < k :: messages[i] != "") && (k < |messages| ==> messages[k] == "")
  {
    if messages == [] || messages[0] == "" then 0 else 1 + FirstEmpty(messages[1..])
  }

  // Any messages, empty ones too, framed and in any pieces: those before the first empty one come
  // out, and the loop never ends if and only if there is another byte behind an empty one.
  lemma NeverEndsIff(cs: Checksum, messages: seq<string>, chunks: seq<string>)
    requires IsChecksum(cs) && Joined(chunks) == Framed(cs, messages) && forall m | m in messages :: |m| < 0x8000_0000
    ensures var h := HandleAll(cs, INITIAL, chunks);
            && h.emitted == messages[..FirstEmpty(messages)]
            && (h.stuck <==> exists i :: 0 <= i < |messages| - 1 && messages[i] == "")
  {
    hide HandleAll; hide Framed; hide IsChecksum; hide Joined; hide FrameHead; hide Run;
    var k := FirstEmpty(messages);
    if k == |messages| {
      FramesComeBack(cs, messages, chunks);
      assert messages[..k] == messages;
    } else {
      var a := SplitAtEmpty(cs, messages, k);
      FramesAreNotEmpty(cs, messages[k + 1..]);
      Stalls(cs, INITIAL, a, Framed(cs, messages[k + 1..]), chunks);
    }
  }

  lemma SplitAtEmpty(cs: Checksum, messages: seq<string>, k: nat) returns (a: string)
    requires IsChecksum(cs) && k < |messages| && messages[k] == ""
    requires (forall i | 0 <= i < k :: messages[i] != "") && forall m | m in messages :: |m| < 0x8000_0000
    ensures Framed(cs, messages) == a + Framed(cs, messages[k + 1..])
    ensures var p := Run(cs, INITIAL, a);
            p.Some? && p.value.emitted == messages[..k] && Stalled(p.value.reader)
  {
    forall m | m in messages[..k] ensures 0 < |m| < 0x8000_0000 {
      var i :| 0 <= i < k && messages[i] == m;
    }
    CutOut(messages, k);
    hide *;
    a := RunsUpToEmpty(cs, messages[..k]);
    EmptyBetween(cs, messages[..k], messages[k + 1..]);
  }

  lemma CutOut(messages: seq<string>, k: nat)
    requires k < |messages|
    ensures messages == messages[..k] + ([messages[k]] + messages[k + 1..])
  {
  }

  lemma EmptyBetween(cs: Checksum, front: seq<string>, back: seq<string>)
    ensures Framed(cs, front + ([""] + back)) == Framed(cs, front) + FrameHead(cs, "") + Framed(cs, back)
  {
    FramedAppend(cs, front, [""] + back);
    assert ([""] + back)[1..] == back;
    hide FrameHead;
    assert Frame(cs, "") == FrameHead(cs, "") + "" == FrameHead(cs, "");
    var x, y, z := Framed(cs, front), FrameHead(cs, ""), Framed(cs, back);
    hide Framed;
    assert x + (y + z) == x + y + z;
  }

  lemma FramesAreNotEmpty(cs: Checksum, messages: seq<string>)
    ensures Framed(cs, messages) == "" <==> messages == []
  {
    if messages != [] { assert |Frame(cs, messages[0])| >= |SYNC|; }
  }

  // ---------- where the pieces matter ----------

  // The reader in front of a checksum of a size, or of SYNC again.
  function AtField(r: Reader, state: HeaderState): Reader
  {
    r.(header := r.header.(buffer := "", state := state))
  }

  function Behind(r: Reader, f: string): HeaderState
  {
    if EndsWith(Last(r.header.buffer + f), SYNC) then ReadingChecksumOfSizeOfData else LookingForSync
  }

  // A first field and its comma: what follows is read as the checksum of a size either way.
  lemma FirstField(cs: Checksum, r: Reader, f: string, t: string)
    requires Ready(r) && CommaFree(f)
    ensures ReadHeader(cs, r.header, f + "," + t) == ReadChecksumOfSize(cs, AtField(r, Behind(r, f)).header, t)
  {
    hide ReadChecksumOfSize; hide UntilComma;
    assert Last(r.header.buffer) == r.header.buffer;
    FieldIs(r.header.buffer, f, t);
  }

  // When the bytes end there, the reader remembers only whether it saw SYNC.
  lemma FieldAlone(cs: Checksum, r: Reader, f: string)
    requires Ready(r) && CommaFree(f)
    ensures Handle(cs, r, f + ",") == Handled(AtField(r, Behind(r, f)), [], false)
  {
    FirstField(cs, r, f, "");
    var input, next := f + ",", AtField(r, Behind(r, f));
    assert f + "," + "" == input;
    assert ReadChecksumOfSize(cs, next.header, "") == HeaderRead(next.header, "", false);
    hide ReadHeader;
    assert ReadMessage(cs, r, input) == MessageRead(next, "", None);
    HandleOnce(cs, r, input);
  }

  lemma SyncedCut(cs: Checksum, r: Reader, f: string, t: string)
    requires Ready(r) && CommaFree(f) && Behind(r, f) == ReadingChecksumOfSizeOfData
    ensures HandleAll(cs, r, [f + ",", t]) == Handle(cs, r, f + "," + t)
  {
    FieldRuns(cs, r, f, "");
    assert f + "," + "" == f + ",";
    CutInSync(cs, r, f + ",", t);
  }

  lemma FrameArrives(cs: Checksum, r: Reader)
    requires IsChecksum(cs) && Ready(r)
    ensures Handle(cs, r, Frame(cs, "a")).emitted == ["a"]
  {
    var arrival := Arrival("", "a", "a");
    ArrivalRuns(cs, r, arrival);
    assert ArrivalText(cs, arrival) == Frame(cs, "a");
    hide Handle; hide Run; hide Frame; hide ArrivalText; hide IsChecksum;
    HandleAgrees(cs, r, Frame(cs, "a"));
  }

  // A comma too many, then the frame of "a". In two pieces it arrives.
  lemma ArrivesAfterCut(cs: Checksum, r: Reader, f: string)
    requires IsChecksum(cs) && Ready(r) && CommaFree(f) && Behind(r, f) == LookingForSync
    ensures HandleAll(cs, r, [f + ",", Frame(cs, "a")]).emitted == ["a"]
  {
    FieldAlone(cs, r, f);
    FrameArrives(cs, AtField(r, LookingForSync));
    hide Handle; hide HandleAll; hide Frame; hide Ready; hide IsChecksum; hide Behind;
    TwoPieces(cs, r, f + ",", Frame(cs, "a"));
  }

  // In one piece the frame is lost, because the field behind the comma is taken for a checksum.
  lemma LostInOnePiece(cs: Checksum, r: Reader, f: string)
    requires IsChecksum(cs) && ParseInt(cs("1"), 32) == None
    requires Ready(r) && CommaFree(f) && Behind(r, f) == LookingForSync
    ensures Handle(cs, r, f + "," + Frame(cs, "a")).emitted == []
  {
    var input3 := cs("a") + "," + "a";
    var input2 := "1" + "," + input3;
    FirstPass(cs, r, f, input2);
    var stale := r.(header := r.header.(checksumOfSize := "SYNC", size := 0, buffer := cs("1")));
    SecondPass(cs, stale, input3);
    hide ReadMessage; hide ParseInt; hide Frame; hide IsChecksum;
    HandleOnce(cs, stale, input2);
  }

  // The first pass takes SYNC for a checksum and ends at a number that cannot be read, which
  // stays in the buffer.
  lemma FirstPass(cs: Checksum, r: Reader, f: string, input2: string)
    requires IsChecksum(cs) && ParseInt(cs("1"), 32) == None && input2 == "1" + "," + (cs("a") + "," + "a")
    requires Ready(r) && CommaFree(f) && Behind(r, f) == LookingForSync
    ensures ReadMessage(cs, r, f + "," + Frame(cs, "a"))
            == MessageRead(r.(header := r.header.(checksumOfSize := "SYNC", size := 0, buffer := cs("1"))), input2, None)
  {
    var size := cs("1");
    var input1 := size + "," + input2;
    FrameOfA(cs, input1);
    FirstField(cs, r, f, "SYNC" + "," + input1);
    hide ParseInt; hide UntilComma; hide ReadHeader;
    FirstFieldIs("SYNC", input1);
    FirstFieldIs(size, input2);
  }

  lemma FrameOfA(cs: Checksum, input1: string)
    requires input1 == cs("1") + "," + ("1" + "," + (cs("a") + "," + "a"))
    ensures Frame(cs, "a") == "SYNC" + "," + input1
  {
    assert IntToString(1) == "1" && |"a"| == 1;
  }

  // The second takes the rest of the frame for SYNC, a checksum and the start of a size.
  lemma SecondPass(cs: Checksum, r: Reader, input3: string)
    requires IsChecksum(cs) && Ready(r) && r.header.buffer == cs("1") && input3 == cs("a") + "," + "a"
    ensures var m := ReadMessage(cs, r, "1" + "," + input3);
            m.rest == "" && m.message == None
  {
    var b := Last(cs("1") + "1");
    assert Behind(r, "1") == LookingForSync by { assert b[|b| - 1] == '1'; }
    FirstField(cs, r, "1", input3);
    hide ParseInt; hide UntilComma; hide ReadHeader;
    FirstFieldIs(cs("a"), "a");
    FirstFieldIs("a", "");
  }

  // A cut right behind a field that is not part of a header makes no difference, whatever comes
  // next, if and only if the field ends in SYNC: without it, what comes in the same piece is taken
  // for a checksum and what comes in the next piece is not.
  lemma CutBehindFieldIff(cs: Checksum, r: Reader, f: string)
    requires IsChecksum(cs) && ParseInt(cs("1"), 32) == None && Ready(r) && CommaFree(f)
    ensures (forall t: string :: HandleAll(cs, r, [f + ",", t]) == Handle(cs, r, f + "," + t))
            <==> EndsWith(Last(r.header.buffer + f), SYNC)
  {
    if Behind(r, f) == LookingForSync {
      ArrivesAfterCut(cs, r, f);
      LostInOnePiece(cs, r, f);
    } else {
      forall t: string ensures HandleAll(cs, r, [f + ",", t]) == Handle(cs, r, f + "," + t) {
        SyncedCut(cs, r, f, t);
      }
    }
  }
}
