// EasyTreeHashItem: one line for a file or a directory with size, times and hash.
module EasyTreeHashItem {
  import opened Wrappers
  import opened Text
  import opened ColonEscaping
  import opened LastModifiedTimestamp

  type Byte = n: int | 0 <= n < 256

  function TempStart(): string { "DSOU23048^(#&*%&*(#((#__@*@**----" }
  function TempMiddle(): string { "262634847////slashesAreIllegalInFilenames" }
  function TempRest(): string { "Woo///29345345$$%802308SDFLK" }
  function TempEnd(): string { "JFKJLA*(#&Q$SD" }
  function TempString(): string { TempStart() + TempMiddle() + TempRest() + TempEnd() }

  lemma TempStringIsPlaceholder()
    ensures Placeholder(TempString(), 42)
  {
    StartHasNoSlash();
    MiddleHasSlashes();
    RestHasNoColon();
    hide TempStart; hide TempMiddle; hide TempRest; hide TempEnd;
    var start, rest := TempStart(), TempMiddle() + (TempRest() + TempEnd());
    assert forall k | 0 <= k < 41 :: rest[k] == TempMiddle()[k];
    MakesPlaceholder(start, rest, 9);
    assert start + rest == TempString();
  }

  lemma StartHasNoSlash()
    ensures |TempStart()| == 33 && '/' !in TempStart() && ':' !in TempStart()
  {
  }

  lemma MiddleHasSlashes()
    ensures |TempMiddle()| == 41 && TempMiddle()[9] == '/' && TempMiddle()[10] == '/'
    ensures ':' !in TempMiddle() && forall k | 0 <= k < 9 :: TempMiddle()[k] != '/'
  {
  }

  lemma RestHasNoColon()
    ensures ':' !in TempRest() && ':' !in TempEnd()
  {
  }

  // ---------- numbers and hex ----------

  function DigitsPrefix(s: string): (d: string)
    ensures forall c | c in d :: IsDigit(c)
  {
    if s != "" && IsDigit(s[0]) then [s[0]] + DigitsPrefix(s[1..]) else ""
  }

  // QTextStream >> qint64: white space, a sign, and digits as far as they go.
  function ReadQint64(s: string): int
  {
    var t := TrimLeft(s);
    var negative := t != "" && t[0] == '-';
    var digits := DigitsPrefix(if negative || (t != "" && t[0] == '+') then t[1..] else t);
    if negative then 0 - DigitsValue(digits) else DigitsValue(digits)
  }

  lemma {:induction false} AllDigits(s: string)
    requires forall c | c in s :: IsDigit(c)
    ensures DigitsPrefix(s) == s
  {
    if s != "" {
      assert s[0] in s && forall c | c in s[1..] :: c in s;
      AllDigits(s[1..]);
      assert s == [s[0]] + s[1..];
    }
  }

  lemma ReadQint64OfNumber(n: int)
    ensures ReadQint64(IntToString(n)) == n
  {
    var s := IntToString(n);
    assert s[0] in s;
    assert TrimLeft(s) == s;
    var m := if n < 0 then -n else n;
    DigitsValueOfNat(m);
    AllDigits(NatToString(m));
    if n < 0 { assert s[1..] == NatToString(m); }
  }

  lemma {:induction false} DigitsUpTo(d: string, tail: string)
    requires (forall c | c in d :: IsDigit(c)) && (tail == "" || !IsDigit(tail[0]))
    ensures DigitsPrefix(d + tail) == d
    decreases |d|
  {
    if d == "" {
      NothingInFront(d, tail);
    } else {
      assert d[0] in d && forall c | c in d[1..] :: c in d;
      assert (d + tail)[1..] == d[1..] + tail && d == [d[0]] + d[1..];
      DigitsUpTo(d[1..], tail);
    }
  }

  // White space in front of a number and whatever is no digit behind it do not matter.
  lemma NumberAmongJunk(space: string, n: int, tail: string)
    requires AllSpace(space) && (tail == "" || !IsDigit(tail[0]))
    ensures ReadQint64(space + (IntToString(n) + tail)) == n
  {
    var m := if n < 0 then -n else n;
    DigitsValueOfNat(m);
    DigitsUpTo(NatToString(m), tail);
    IsNumber(n);
    hide NatToString; hide DigitsPrefix; hide DigitsValue; hide IntToString; hide TrimLeft;
    var d := NatToString(m);
    assert d[0] in d;
    if n < 0 {
      assert IntToString(n) + tail == "-" + (d + tail);
      NegativeRead(space, "-", d + tail, d);
    } else {
      UnsignedRead(space, d + tail, d);
    }
  }

  lemma NegativeRead(space: string, sign: string, rest: string, d: string)
    requires AllSpace(space) && sign == "-" && DigitsPrefix(rest) == d
    ensures ReadQint64(space + (sign + rest)) == 0 - DigitsValue(d)
  {
    TrimLeftOver(space, sign + rest);
    hide TrimLeft; hide DigitsPrefix; hide DigitsValue;
    assert (sign + rest)[1..] == rest && (sign + rest)[0] == '-';
  }

  lemma UnsignedRead(space: string, rest: string, d: string)
    requires AllSpace(space) && rest != "" && IsDigit(rest[0]) && DigitsPrefix(rest) == d
    ensures ReadQint64(space + rest) == DigitsValue(d)
  {
    TrimLeftOver(space, rest);
  }

  lemma IsNumber(n: int)
    ensures n < 0 ==> IntToString(n) == "-" + NatToString(-n)
    ensures n >= 0 ==> IntToString(n) == NatToString(n)
  {
  }

  // Without a digit or a sign in front it is no number, and zero is read.
  lemma NoNumberIsZero(space: string, tail: string)
    requires AllSpace(space)
    requires tail != "" ==> !IsSpace(tail[0]) && !IsDigit(tail[0]) && tail[0] != '-' && tail[0] != '+'
    ensures ReadQint64(space + tail) == 0
  {
    TrimLeftOver(space, tail);
  }

  function HexValue(c: char): Option<Nibble>
  {
    if '0' <= c <= '9' then Some(c as int - '0' as int)
    else if 'a' <= c <= 'f' then Some(c as int - 'a' as int + 10)
    else if 'A' <= c <= 'F' then Some(c as int - 'A' as int + 10)
    else None
  }

  function HexDigit(n: nat): (c: char)
    requires n < 16
    ensures HexValue(c) == Some(n) && (IsDigit(c) || 'a' <= c <= 'f')
  {
    if n < 10 then '0' + n as char else 'a' + (n - 10) as char
  }

  // QByteArray::toHex
  function ToHex(b: seq<Byte>): (s: string)
    ensures forall c | c in s :: IsDigit(c) || 'a' <= c <= 'f'
    ensures b != [] ==> s != ""
  {
    if b == [] then "" else ToHex(b[..|b| - 1]) + [HexDigit(b[|b| - 1] / 16), HexDigit(b[|b| - 1] % 16)]
  }

  type Nibble = n: nat | n < 16

  // QByteArray::fromHex works from the end and skips what is not a hex digit.
  function HexValues(s: string): seq<Nibble>
  {
    if s == "" then []
    else HexValues(s[..|s| - 1]) + match HexValue(s[|s| - 1]) case None => [] case Some(n) => [n]
  }

  function FromHexValues(v: seq<Nibble>): seq<Byte>
  {
    if v == [] then []
    else if |v| == 1 then [v[0]]
    else FromHexValues(v[..|v| - 2]) + [v[|v| - 2] as int * 16 + v[|v| - 1] as int]
  }

  function FromHex(s: string): seq<Byte> { FromHexValues(HexValues(s)) }

  lemma {:induction false} HexComesBack(b: seq<Byte>)
    ensures FromHex(ToHex(b)) == b
  {
    if b != [] {
      var front, last := b[..|b| - 1], b[|b| - 1];
      var hi, lo := HexDigit(last / 16), HexDigit(last % 16);
      HexComesBack(front);
      var s := ToHex(b);
      assert s[..|s| - 1] == ToHex(front) + [hi];
      assert (ToHex(front) + [hi])[..|ToHex(front)|] == ToHex(front);
      var v := HexValues(ToHex(front));
      assert HexValues(ToHex(front) + [hi]) == v + [last / 16];
      assert HexValues(s) == v + [last / 16] + [last % 16] == v + [last / 16, last % 16];
      assert (v + [last / 16, last % 16])[..|v|] == v;
      assert b == front + [last];
    }
  }

  lemma {:induction false} HexValuesAppend(a: string, b: string)
    ensures HexValues(a + b) == HexValues(a) + HexValues(b)
    decreases |b|
  {
    if b == "" {
      assert a + b == a;
    } else {
      assert (a + b)[..|a + b| - 1] == a + b[..|b| - 1];
      HexValuesAppend(a, b[..|b| - 1]);
    }
  }

  // A character that is no hex digit might as well not be there.
  lemma JunkInHex(a: string, c: char, b: string)
    requires !('0' <= c <= '9') && !('a' <= c <= 'f') && !('A' <= c <= 'F')
    ensures FromHex(a + [c] + b) == FromHex(a + b)
  {
    HexValuesAppend(a + [c], b);
    HexValuesAppend(a, [c]);
    HexValuesAppend(a, b);
    assert HexValues([c]) == HexValues("");
    assert HexValues(a) + [] == HexValues(a);
  }

  // ---------- the line ----------

  // Times in milliseconds since the epoch. hash None: setHasHash was never called.
  datatype Item = Item(path: string, directory: bool, size: int, created: Option<int>, modified: int,
                       hash: Option<seq<Byte>>, replacement: string)

  function PrintItem(i: Item): string
    requires i.created.Some?
  {
    Escaped(i.path) + (if i.directory then "/" else COLON + IntToString(i.size))
    + COLON + IntToString(Seconds(i.created.value)) + COLON + IntToString(Seconds(i.modified))
    + (match i.hash case None => "" case Some(h) => COLON + ToHex(h))
  }

  function Unescaped(segments: seq<string>): (r: seq<string>)
    ensures |r| == |segments| && forall i | 0 <= i < |r| :: r[i] == Replace(segments[i], TempString(), COLON)
  {
    if segments == [] then [] else [Replace(segments[0], TempString(), COLON)] + Unescaped(segments[1..])
  }

  function Segments(line: string): seq<string>
  {
    if Contains(line, ESCAPED_COLON) then
      Unescaped(SkipEmpty(Split(Replace(line, ESCAPED_COLON, TempString()), COLON)))
    else SkipEmpty(Split(line, COLON))
  }

  // None: at() would be out of range.
  function ParseItem(line: string, suppliesReplacement: bool, hasCreationDate: bool): Option<Item>
  {
    var all := Segments(line);
    if suppliesReplacement && all == [] then None
    else
      var replacement := if suppliesReplacement then all[0] else "";
      var segments := if suppliesReplacement then all[1..] else all;
      if segments == [] then None
      else
        var directory := EndsWith(segments[0], "/");
        if !directory && |segments| < 2 then None
        else
          var size := if directory then -1 else ReadQint64(segments[1]);
          var index := if directory then 1 else 2;
          if hasCreationDate && index >= |segments| then None
          else
            var created := if hasCreationDate then Some(ReadQint64(segments[index]) * 1000) else None;
            var index' := if hasCreationDate then index + 1 else index;
            if index' >= |segments| then None
            else
              Some(Item(segments[0], directory, size, created, ReadQint64(segments[index']) * 1000,
                        if !directory && |segments| > 4 then Some(FromHex(segments[index' + 1])) else None, replacement))
  }

  // ---------- round trips ----------

  function NumbersOf(i: Item): seq<string>
    requires i.created.Some?
  {
    [IntToString(Seconds(i.created.value)), IntToString(Seconds(i.modified))]
  }

  function FieldsOf(i: Item): seq<string>
    requires i.created.Some?
  {
    var rest := NumbersOf(i) + if i.hash.Some? && i.hash.value != [] then [ToHex(i.hash.value)] else [];
    if i.directory then rest else [IntToString(i.size)] + rest
  }

  lemma FieldsArePlain(i: Item)
    requires i.created.Some?
    ensures forall f | f in FieldsOf(i) :: PlainField(f)
  {
    NumberIsPlain(i.size);
    NumberIsPlain(Seconds(i.created.value));
    NumberIsPlain(Seconds(i.modified));
    if i.hash.Some? && i.hash.value != [] {
      var s := ToHex(i.hash.value);
      assert forall c | c in s :: IsDigit(c) || 'a' <= c <= 'f';
    }
  }

  function PathOf(i: Item): string { if i.directory then i.path + "/" else i.path }

  // An empty hash leaves a colon at the end of the line and nothing else.
  function Dangling(i: Item): string { if i.hash == Some([]) then COLON else "" }

  lemma PrintedIs(i: Item)
    requires i.created.Some?
    ensures PrintItem(i) == Escaped(PathOf(i)) + (COLON + (Tail(FieldsOf(i)) + Dangling(i)))
  {
    hide IntToString; hide ToHex; hide Replace; hide Tail;
    var c, m := IntToString(Seconds(i.created.value)), IntToString(Seconds(i.modified));
    var h := if i.hash.Some? && i.hash.value != [] then [ToHex(i.hash.value)] else [];
    var end := match i.hash case None => "" case Some(x) => COLON + ToHex(x);
    TailOfNumbers(c, m, h);
    NoHex();
    assert Tail([c, m] + h) + Dangling(i) == c + COLON + m + end;
    if i.directory {
      SlashIsKept(i.path);
      assert [] + [c, m] + h == [c, m] + h;
      Regroup(Escaped(i.path) + "/", "", c, m, end);
    } else {
      var z := IntToString(i.size);
      TailStep(z, [c, m] + h);
      assert [z] + [c, m] + h == [z] + ([c, m] + h);
      Regroup(Escaped(i.path), COLON + z, c, m, end);
    }
  }

  lemma NoHex()
    ensures ToHex([]) == ""
  {
  }

  lemma Regroup(path: string, size: string, c: string, m: string, end: string)
    ensures path + size + COLON + c + COLON + m + end == path + (size + (COLON + (c + COLON + m + end)))
  {
  }

  lemma TailStep(f: string, rest: seq<string>)
    requires rest != []
    ensures Tail([f] + rest) == f + COLON + Tail(rest)
  {
    assert ([f] + rest)[1..] == rest;
  }

  lemma TailOfNumbers(c: string, m: string, h: seq<string>)
    requires |h| <= 1
    ensures Tail([c, m] + h) == c + COLON + m + (if h == [] then "" else COLON + h[0])
  {
    assert [c, m] + h == [c] + ([m] + h);
    TailStep(c, [m] + h);
    if h != [] {
      TailStep(m, h);
      assert h == [h[0]];
    } else {
      assert [m] + h == [m];
    }
  }

  lemma {:induction false} SlashIsKept(path: string)
    ensures Escaped(path + "/") == Escaped(path) + "/"
    decreases |path|
  {
    ReplaceStep(path + "/", ESCAPED_COLON);
    if path == "" {
      assert path + "/" == "/" && "/"[1..] == "";
    } else {
      assert (path + "/")[1..] == path[1..] + "/";
      ReplaceStep(path, ESCAPED_COLON);
      SlashIsKept(path[1..]);
      var e := if path[0] == ':' then ESCAPED_COLON else [path[0]];
      assert e + (Escaped(path[1..]) + "/") == e + Escaped(path[1..]) + "/";
    }
  }

  // What parsing makes of a printed item: whole seconds, no empty hash, and for a directory a
  // slash behind the path, no size and no hash.
  function Reparsed(i: Item): Item
    requires i.created.Some?
  {
    Item(PathOf(i), i.directory, if i.directory then -1 else i.size, Some(Seconds(i.created.value) * 1000),
         Seconds(i.modified) * 1000, if i.directory || i.hash == Some([]) then None else i.hash, "")
  }

  lemma UnescapedPlain(fields: seq<string>)
    requires forall f | f in fields :: PlainField(f)
    ensures Unescaped(fields) == fields
  {
    TempStringIsPlaceholder();
    hide TempString;
    forall i | 0 <= i < |fields| ensures Unescaped(fields)[i] == fields[i] {
      assert fields[i] in fields;
      ContainedChar(fields[i], TempString(), 42);
      ReplaceNone(fields[i], TempString(), COLON);
    }
  }

  // A path without "//" that does not end in a backslash is the first segment of its line.
  lemma SegmentsOfLine(path: string, fields: seq<string>, dangling: string)
    requires NoDoubledSlash(path) && path != "" && !EndsInBackslash(path)
    requires fields != [] && (forall f | f in fields :: PlainField(f)) && (dangling == "" || dangling == COLON)
    ensures Segments(Escaped(path) + (COLON + (Tail(fields) + dangling))) == [path] + fields
  {
    hide TempString; hide Replace; hide Split; hide SkipEmpty; hide Contains; hide Tail;
    TempStringIsPlaceholder();
    var p := TempString();
    var rest := Tail(fields) + dangling;
    var line := Escaped(path) + (COLON + rest);
    TailSplits(fields, dangling);
    LineSplits(path, rest, p);
    PlaceholdersBack(path, p, 42);
    UnescapedPlain(fields);
    UnescapedFirst(Replace(path, COLON, p), fields);
    if !Contains(line, ESCAPED_COLON) {
      ReplaceNone(line, ESCAPED_COLON, p);
      NothingToEscape(path, COLON + rest, p);
    }
  }

  // Two paths in front of the fields, both with colons of their own.
  lemma SegmentsOfTwoPaths(r: string, path: string, fields: seq<string>, dangling: string)
    requires NoDoubledSlash(r) && r != "" && !EndsInBackslash(r)
    requires NoDoubledSlash(path) && path != "" && !EndsInBackslash(path)
    requires fields != [] && (forall f | f in fields :: PlainField(f)) && (dangling == "" || dangling == COLON)
    ensures Segments(Escaped(r) + (COLON + (Escaped(path) + (COLON + (Tail(fields) + dangling))))) == [r, path] + fields
  {
    hide TempString; hide Replace; hide Split; hide SkipEmpty; hide Contains; hide Tail;
    TempStringIsPlaceholder();
    var p := TempString();
    var rest := Tail(fields) + dangling;
    var inner := Escaped(path) + (COLON + rest);
    var line := Escaped(r) + (COLON + inner);
    TailSplits(fields, dangling);
    LineSplits(path, rest, p);
    LineSplitsAhead(r, inner, p);
    PlaceholdersBack(r, p, 42);
    PlaceholdersBack(path, p, 42);
    UnescapedPlain(fields);
    UnescapedFirst(Replace(path, COLON, p), fields);
    UnescapedFirst(Replace(r, COLON, p), [Replace(path, COLON, p)] + fields);
    assert [r] + ([path] + fields) == [r, path] + fields;
    if !Contains(line, ESCAPED_COLON) {
      ReplaceNone(line, ESCAPED_COLON, p);
      NothingToEscape(r, COLON + inner, p);
      PartOfLine(Escaped(r) + COLON, inner);
      NothingToEscape(path, COLON + rest, p);
    }
  }

  lemma PartOfLine(front: string, inner: string)
    ensures Contains(inner, ESCAPED_COLON) ==> Contains(front + inner, ESCAPED_COLON)
    ensures forall r: string :: front == r + COLON ==> front + inner == r + (COLON + inner)
  {
    PartContains(front, inner, "", ESCAPED_COLON);
    assert front + inner + "" == front + inner;
    forall r: string | front == r + COLON ensures front + inner == r + (COLON + inner) {
    }
  }

  lemma UnescapedFirst(first: string, fields: seq<string>)
    ensures Unescaped([first] + fields) == [Replace(first, TempString(), COLON)] + Unescaped(fields)
  {
    assert ([first] + fields)[1..] == fields;
  }

  lemma NothingToEscape(path: string, suffix: string, p: string)
    requires !Contains(Escaped(path) + suffix, ESCAPED_COLON)
    ensures Replace(path, COLON, p) == path
  {
    if ':' in path {
      var a, b := CutAtColon(path);
      FirstColon(a, b);
      ReplaceFirst(a, COLON, b, ESCAPED_COLON);
      EscapedInside(a, Escaped(b), suffix, Escaped(path));
    } else {
      hide Escaped;
      ContainedChar(path, COLON, 0);
      ReplaceNone(path, COLON, p);
    }
  }

  lemma EscapedInside(a: string, b: string, suffix: string, all: string)
    requires all == a + ESCAPED_COLON + b
    ensures Contains(all + suffix, ESCAPED_COLON)
  {
    ContainsPart(a, ESCAPED_COLON, b + suffix);
    assert a + ESCAPED_COLON + (b + suffix) == all + suffix;
  }

  lemma SegmentsOfItem(i: Item)
    requires i.created.Some? && NoDoubledSlash(PathOf(i)) && PathOf(i) != "" && !EndsInBackslash(PathOf(i))
    ensures Segments(PrintItem(i)) == [PathOf(i)] + FieldsOf(i)
  {
    PrintedIs(i);
    FieldsArePlain(i);
    SegmentsOfLine(PathOf(i), FieldsOf(i), Dangling(i));
  }

  lemma NumbersRead(i: Item)
    requires i.created.Some?
    ensures ReadQint64(IntToString(i.size)) == i.size
    ensures ReadQint64(IntToString(Seconds(i.created.value))) == Seconds(i.created.value)
    ensures ReadQint64(IntToString(Seconds(i.modified))) == Seconds(i.modified)
    ensures i.hash.Some? ==> FromHex(ToHex(i.hash.value)) == i.hash.value
  {
    ReadQint64OfNumber(i.size);
    ReadQint64OfNumber(Seconds(i.created.value));
    ReadQint64OfNumber(Seconds(i.modified));
    if i.hash.Some? { HexComesBack(i.hash.value); }
  }

  // A directory keeps its path, with the slash that marks it, whatever its last character is.
  lemma DirectoryComesBack(i: Item)
    requires i.directory && i.created.Some? && NoDoubledSlash(i.path + "/")
    ensures ParseItem(PrintItem(i), false, true) == Some(Reparsed(i))
  {
    hide Segments; hide ReadQint64; hide IntToString; hide PrintItem; hide FromHex; hide ToHex;
    SegmentsOfItem(i);
    NumbersRead(i);
  }

  lemma FileComesBack(i: Item)
    requires !i.directory && i.created.Some? && NoDoubledSlash(i.path)
    requires i.path != "" && !EndsWith(i.path, "/") && !EndsInBackslash(i.path)
    ensures ParseItem(PrintItem(i), false, true) == Some(Reparsed(i))
  {
    hide Segments; hide ReadQint64; hide IntToString; hide PrintItem; hide FromHex; hide ToHex;
    SegmentsOfItem(i);
    NumbersRead(i);
  }

  // A path that a printed item brings back.
  ghost predicate GoodPath(i: Item)
  {
    && NoDoubledSlash(PathOf(i)) && PathOf(i) != "" && !EndsInBackslash(PathOf(i))
    && (!i.directory ==> !EndsWith(i.path, "/"))
  }

  // With a replacement path in front of it, escaped like the other one, a printed item comes back
  // together with the replacement.
  lemma ReplacementComesBack(r: string, i: Item)
    requires NoDoubledSlash(r) && r != "" && !EndsInBackslash(r) && i.created.Some? && GoodPath(i)
    ensures ParseItem(Escaped(r) + COLON + PrintItem(i), true, true) == Some(Reparsed(i).(replacement := r))
  {
    var line := Escaped(r) + COLON + PrintItem(i);
    SegmentsOfReplacement(r, i);
    SegmentsOfItem(i);
    RestIsParsed(line, PrintItem(i), r, true);
    hide ParseItem; hide Reparsed; hide Segments; hide PrintItem; hide NoDoubledSlash;
    if i.directory { DirectoryComesBack(i); } else { FileComesBack(i); }
  }

  lemma SegmentsOfReplacement(r: string, i: Item)
    requires NoDoubledSlash(r) && r != "" && !EndsInBackslash(r) && i.created.Some? && GoodPath(i)
    ensures Segments(Escaped(r) + COLON + PrintItem(i)) == [r] + ([PathOf(i)] + FieldsOf(i))
  {
    PrintedIs(i);
    FieldsArePlain(i);
    SegmentsOfTwoPaths(r, PathOf(i), FieldsOf(i), Dangling(i));
    hide *;
    ThreePieces(Escaped(r), COLON, PrintItem(i));
    TwoInFront(r, PathOf(i), FieldsOf(i));
  }

  lemma ThreePieces(a: string, b: string, c: string)
    ensures a + b + c == a + (b + c)
  {
  }

  lemma TwoInFront(a: string, b: string, rest: seq<string>)
    ensures [a, b] + rest == [a] + ([b] + rest)
  {
  }

  // Behind its first field a line with a replacement path is read like one without.
  lemma RestIsParsed(line: string, rest: string, r: string, dated: bool)
    requires Segments(line) == [r] + Segments(rest)
    ensures ParseItem(line, true, dated)
            == match ParseItem(rest, false, dated) case None => None case Some(i) => Some(i.(replacement := r))
  {
    assert Segments(line)[1..] == Segments(rest);
    hide Segments; hide ReadQint64; hide FromHex;
  }

  // The fields of a line without a creation date.
  function UndatedFields(i: Item): seq<string>
  {
    var rest := [IntToString(Seconds(i.modified))] + if i.hash.Some? && i.hash.value != [] then [ToHex(i.hash.value)] else [];
    if i.directory then rest else [IntToString(i.size)] + rest
  }

  lemma UndatedArePlain(i: Item)
    ensures UndatedFields(i) != [] && forall f | f in UndatedFields(i) :: PlainField(f)
  {
    var dated := i.(created := Some(0));
    FieldsArePlain(dated);
    assert forall f | f in UndatedFields(i) :: f in FieldsOf(dated);
  }

  // Read as a line without a creation date it gives path, size and time of modification; the hash
  // is lost, because it would be the fifth field.
  lemma UndatedItemComesBack(i: Item)
    requires GoodPath(i)
    ensures ParseItem(Escaped(PathOf(i)) + (COLON + Tail(UndatedFields(i))), false, false)
            == Some(Item(PathOf(i), i.directory, if i.directory then -1 else i.size, None, Seconds(i.modified) * 1000, None, ""))
  {
    UndatedArePlain(i);
    SegmentsOfLine(PathOf(i), UndatedFields(i), "");
    assert Tail(UndatedFields(i)) + "" == Tail(UndatedFields(i));
    hide Segments; hide ReadQint64; hide IntToString; hide FromHex; hide ToHex; hide Tail; hide Escaped;
    NumbersRead(i.(created := Some(0)));
  }

  lemma UndatedReplacementComesBack(r: string, i: Item)
    requires NoDoubledSlash(r) && r != "" && !EndsInBackslash(r) && GoodPath(i)
    ensures ParseItem(Escaped(r) + (COLON + (Escaped(PathOf(i)) + (COLON + Tail(UndatedFields(i))))), true, false)
            == Some(Item(PathOf(i), i.directory, if i.directory then -1 else i.size, None, Seconds(i.modified) * 1000, None, r))
  {
    var rest := Escaped(PathOf(i)) + (COLON + Tail(UndatedFields(i)));
    UndatedArePlain(i);
    SegmentsOfTwoPaths(r, PathOf(i), UndatedFields(i), "");
    SegmentsOfLine(PathOf(i), UndatedFields(i), "");
    assert Tail(UndatedFields(i)) + "" == Tail(UndatedFields(i));
    hide Segments; hide Tail; hide Escaped; hide UndatedFields; hide ParseItem; hide NoDoubledSlash;
    assert [r, PathOf(i)] + UndatedFields(i) == [r] + ([PathOf(i)] + UndatedFields(i));
    RestIsParsed(Escaped(r) + (COLON + rest), rest, r, false);
    UndatedItemComesBack(i);
  }

  // A good path and any plain fields behind it: the numbers are taken from fixed places, a fifth
  // segment is a file's hash, more are ignored, and too few are an access out of range.
  lemma FieldsAreTaken(path: string, fields: seq<string>, dated: bool)
    requires NoDoubledSlash(path) && path != "" && !EndsInBackslash(path)
    requires fields != [] && forall f | f in fields :: PlainField(f)
    ensures var line := Escaped(path) + (COLON + Tail(fields));
            var numbers := seq(|fields|, k requires 0 <= k < |fields| => ReadQint64(fields[k]));
            ParseItem(line, false, dated)
            == if EndsWith(path, "/") then
                 if !dated then Some(Item(path, true, -1, None, numbers[0] * 1000, None, ""))
                 else if |fields| < 2 then None
                 else Some(Item(path, true, -1, Some(numbers[0] * 1000), numbers[1] * 1000, None, ""))
               else if !dated then
                 if |fields| < 2 then None
                 else
                   Some(Item(path, false, numbers[0], None, numbers[1] * 1000,
                             if |fields| < 4 then None else Some(FromHex(fields[2])), ""))
               else if |fields| < 3 then None
               else
                 Some(Item(path, false, numbers[0], Some(numbers[1] * 1000), numbers[2] * 1000,
                           if |fields| < 4 then None else Some(FromHex(fields[3])), ""))
  {
    SegmentsOfLine(path, fields, "");
    assert Tail(fields) + "" == Tail(fields);
    hide Segments; hide ReadQint64; hide FromHex; hide Tail; hide Escaped;
  }

  // A file comes back with its path, size, times in whole seconds and hash if and only if its
  // path is not empty and ends neither in a slash nor in a backslash.
  lemma FileComesBackIff(i: Item)
    requires !i.directory && i.created.Some? && NoDoubledSlash(i.path)
    ensures ParseItem(PrintItem(i), false, true) == Some(Reparsed(i))
            <==> i.path != "" && !EndsWith(i.path, "/") && !EndsInBackslash(i.path)
  {
    if i.path == "" {
      EmptyPathLost(i);
    } else if EndsInBackslash(i.path) {
      BackslashLost(i);
    } else if EndsWith(i.path, "/") {
      SlashLost(i);
    } else {
      FileComesBack(i);
    }
  }

  // It is taken for a directory.
  lemma SlashLost(i: Item)
    requires !i.directory && i.created.Some? && NoDoubledSlash(i.path) && EndsWith(i.path, "/") && i.path != ""
    ensures ParseItem(PrintItem(i), false, true) != Some(Reparsed(i))
  {
    hide Segments; hide PrintItem; hide ReadQint64; hide FromHex;
    assert !EndsInBackslash(i.path);
    SegmentsOfItem(i);
  }

  // The size is taken for the path.
  lemma EmptyPathLost(i: Item)
    requires !i.directory && i.created.Some? && i.path == ""
    ensures ParseItem(PrintItem(i), false, true) != Some(Reparsed(i))
  {
    hide TempString; hide ReadQint64; hide IntToString; hide FromHex; hide ToHex; hide PrintItem; hide Tail; hide FieldsOf;
    PrintedIs(i);
    FieldsArePlain(i);
    var rest := Tail(FieldsOf(i)) + Dangling(i);
    var line := PrintItem(i);
    FieldsNotEmpty(i);
    TailSplits(FieldsOf(i), Dangling(i));
    assert Escaped("") == "" && line == COLON + rest == "" + COLON + rest;
    ContainedChar(line, ESCAPED_COLON, 0);
    FirstColon("", rest);
    SplitFirst("", COLON, rest);
    EmptyFirst(Split(rest, COLON));
    assert FieldsOf(i)[0] in FieldsOf(i);
  }

  lemma EmptyFirst(parts: seq<string>)
    ensures SkipEmpty([""] + parts) == SkipEmpty(parts)
  {
    assert ([""] + parts)[1..] == parts;
  }

  lemma FieldsNotEmpty(i: Item)
    requires i.created.Some?
    ensures FieldsOf(i) != [] && (!i.directory ==> FieldsOf(i)[0] == IntToString(i.size) && |FieldsOf(i)| >= 3)
  {
  }

  // The size becomes part of the path.
  lemma BackslashLost(i: Item)
    requires !i.directory && i.created.Some? && NoDoubledSlash(i.path) && EndsInBackslash(i.path)
    ensures ParseItem(PrintItem(i), false, true) != Some(Reparsed(i))
  {
    var front, size, rest := SizeIsSwallowed(i);
    hide Segments; hide PrintItem; hide ReadQint64; hide FromHex;
    var path := front + COLON + size;
    assert path[|path| - 1] == size[|size| - 1] && size[|size| - 1] in size;
    assert !EndsWith(path, "/") && path != i.path;
  }

  lemma SizeIsSwallowed(i: Item) returns (front: string, size: string, rest: string)
    requires !i.directory && i.created.Some? && NoDoubledSlash(i.path) && EndsInBackslash(i.path)
    ensures PlainField(size) && i.path == front + "\\"
    ensures Segments(PrintItem(i)) != [] && Segments(PrintItem(i))[0] == front + COLON + size
  {
    PrintedIs(i);
    FieldsArePlain(i);
    FieldsNotEmpty(i);
    hide TempString; hide PrintItem; hide Tail; hide FieldsOf; hide Segments; hide Escaped; hide Dangling; hide NoDoubledSlash;
    front := i.path[..|i.path| - 1];
    assert i.path == front + "\\";
    var fields;
    size, fields := FieldsOf(i)[0], FieldsOf(i)[1..];
    assert FieldsOf(i) == [size] + fields && size in FieldsOf(i) && forall f | f in fields :: f in FieldsOf(i);
    TailStep(size, fields);
    var dangling := Dangling(i);
    DanglingIs(i);
    rest := Tail(fields) + dangling;
    FourPieces(size, COLON, Tail(fields), dangling);
    TailSplits(fields, dangling);
    SwallowedSegments(front, size, rest);
  }

  lemma DanglingIs(i: Item)
    ensures Dangling(i) == "" || Dangling(i) == COLON
  {
  }

  lemma FourPieces(a: string, b: string, c: string, d: string)
    ensures a + b + c + d == a + (b + (c + d))
  {
  }

  lemma SwallowedSegments(front: string, size: string, rest: string)
    requires PlainField(size) && NoDoubledSlash(front + "\\") && '\\' !in rest
    ensures var line := Escaped(front + "\\") + (COLON + (size + (COLON + rest)));
            Segments(line) != [] && Segments(line)[0] == front + COLON + size
  {
    hide TempString; hide Replace; hide Split; hide SkipEmpty; hide Contains;
    TempStringIsPlaceholder();
    var p := TempString();
    var line := Escaped(front + "\\") + (COLON + (size + (COLON + rest)));
    var path := front + COLON + size;
    BackslashContained(front, size + (COLON + rest));
    SwallowedColon(front, size + (COLON + rest), p);
    FieldStays(front, size, p);
    var first := Replace(path, COLON, p);
    assert Replace(front, COLON, p) + (p + (size + (COLON + rest))) == first + COLON + rest;
    NoColonLeft(path, p);
    SomethingLeft(path, p);
    FirstColon(first, rest);
    SplitFirst(first, COLON, rest);
    SkipStep(first, Split(rest, COLON));
    UnescapedFirst(first, SkipEmpty(Split(rest, COLON)));
    NoSlashAdded(front, size);
    PlaceholdersBack(path, p, 42);
  }

  lemma BackslashContained(front: string, rest: string)
    ensures Contains(Escaped(front + "\\") + (COLON + rest), ESCAPED_COLON)
  {
    BackslashIsKept(front);
    ContainsPart(Escaped(front), ESCAPED_COLON, rest);
    assert Escaped(front) + ESCAPED_COLON + rest == Escaped(front) + "\\" + (COLON + rest);
  }

  lemma {:induction false} BackslashIsKept(front: string)
    ensures Escaped(front + "\\") == Escaped(front) + "\\"
    decreases |front|
  {
    ReplaceStep(front + "\\", ESCAPED_COLON);
    if front == "" {
      assert front + "\\" == "\\" && "\\"[1..] == "";
    } else {
      assert (front + "\\")[1..] == front[1..] + "\\";
      ReplaceStep(front, ESCAPED_COLON);
      BackslashIsKept(front[1..]);
      var e := if front[0] == ':' then ESCAPED_COLON else [front[0]];
      assert e + (Escaped(front[1..]) + "\\") == e + Escaped(front[1..]) + "\\";
    }
  }

  lemma {:induction false} FieldStays(front: string, size: string, p: string)
    requires ':' !in size
    ensures Replace(front + COLON + size, COLON, p) == Replace(front, COLON, p) + p + size
    decreases |front|
  {
    var path := front + COLON + size;
    ReplaceStep(path, p);
    if front == "" {
      assert path == COLON + size && path[1..] == size;
      ContainedChar(size, COLON, 0);
      ReplaceNone(size, COLON, p);
      assert Replace(front, COLON, p) + p + size == p + size;
    } else {
      assert path[1..] == front[1..] + COLON + size;
      ReplaceStep(front, p);
      FieldStays(front[1..], size, p);
      var c := if front[0] == ':' then p else [front[0]];
      assert c + (Replace(front[1..], COLON, p) + p + size) == c + Replace(front[1..], COLON, p) + p + size;
    }
  }

  lemma NoSlashAdded(front: string, size: string)
    requires NoDoubledSlash(front + "\\") && '/' !in size
    ensures NoDoubledSlash(front + COLON + size)
  {
    var path := front + COLON + size;
    forall k | 0 <= k <= |path| ensures !OccursAt(path, "//", k) {
      if k + 2 <= |path| {
        assert path[k..k + 2] == [path[k], path[k + 1]];
        if k + 1 < |front| {
          assert !OccursAt(front + "\\", "//", k);
          assert (front + "\\")[k..k + 2] == path[k..k + 2];
        }
      }
    }
  }

  // ---------- the object ----------

  class EasyTreeHashItem {
    var relativeFilePath: string
    var isDirectory: bool
    var fileSize: int
    var creationDateTime: Option<int>
    var lastModifiedDateTime: int
    var hash: Option<seq<Byte>>
    var absoluteReplacementFilePath: string

    constructor ()
      ensures creationDateTime == None && hash == None && absoluteReplacementFilePath == ""
    {
      relativeFilePath, isDirectory, fileSize, absoluteReplacementFilePath := "", false, 0, "";
      creationDateTime, lastModifiedDateTime, hash := None, 0, None;
    }

    function Value(): Item
      reads this
    {
      Item(relativeFilePath, isDirectory, fileSize, creationDateTime, lastModifiedDateTime, hash, absoluteReplacementFilePath)
    }

    method ToColonSeparatedLineOfText() returns (ret: string)
      requires creationDateTime.Some?
      ensures ret == PrintItem(Value())
    {
      ret := Replace(relativeFilePath, COLON, ESCAPED_COLON);
      if !isDirectory {
        ret := ret + (COLON + IntToString(fileSize));
      } else {
        ret := ret + "/";
      }
      ret := ret + COLON + IntToString(Seconds(creationDateTime.value)) + COLON + IntToString(Seconds(lastModifiedDateTime));
      if hash.Some? {
        ret := ret + (COLON + ToHex(hash.value));
      } else {
        assert ret + "" == ret;
      }
    }
  }

  method SegmentsOf(lineOfText: string) returns (splitAtColons: seq<string>)
    ensures splitAtColons == Segments(lineOfText)
  {
    hide TempString; hide Contains; hide Replace;
    TempStringIsPlaceholder();
    var lineOfTextModifiable := lineOfText;
    var usingTempStringForEscapedColons := Contains(lineOfText, ESCAPED_COLON);
    if usingTempStringForEscapedColons {
      lineOfTextModifiable := Replace(lineOfText, ESCAPED_COLON, TempString());
    }
    splitAtColons := SkipEmpty(Split(lineOfTextModifiable, COLON));
    if usingTempStringForEscapedColons {
      ghost var split := splitAtColons;
      var i := 0;
      while i < |splitAtColons|
        invariant 0 <= i <= |splitAtColons| == |split|
        invariant forall k | 0 <= k < i :: splitAtColons[k] == Replace(split[k], TempString(), COLON)
        invariant forall k | i <= k < |split| :: splitAtColons[k] == split[k]
      {
        var currentSegment := Replace(splitAtColons[i], TempString(), COLON);
        splitAtColons := splitAtColons[i := currentSegment];
        i := i + 1;
      }
      assert splitAtColons == Unescaped(split);
    }
  }

  // null: the program would read past the end of the list.
  method NewEasyTreeHashItemFromLineOfText(lineOfText: string, suppliesReplacement: bool, hasCreationDate: bool)
    returns (ret: EasyTreeHashItem?)
    ensures ret == null <==> ParseItem(lineOfText, suppliesReplacement, hasCreationDate) == None
    ensures ret != null ==>
              fresh(ret) && ParseItem(lineOfText, suppliesReplacement, hasCreationDate) == Some(ret.Value())
  {
    hide Segments; hide ReadQint64; hide FromHex; hide TempString;
    ret := null;
    var item := new EasyTreeHashItem();
    var splitAtColons := SegmentsOf(lineOfText);
    if suppliesReplacement {
      if splitAtColons == [] { return; }
      item.absoluteReplacementFilePath := splitAtColons[0];
      splitAtColons := splitAtColons[1..];
    }
    if splitAtColons == [] { return; }
    item.isDirectory := EndsWith(splitAtColons[0], "/");
    item.relativeFilePath := splitAtColons[0];
    var index := 1;
    if item.isDirectory {
      item.fileSize := -1;
    } else {
      if |splitAtColons| < 2 { return; }
      item.fileSize := ReadQint64(splitAtColons[1]);
      index := index + 1;
    }
    if hasCreationDate {
      if index >= |splitAtColons| { return; }
      item.creationDateTime := Some(ReadQint64(splitAtColons[index]) * 1000);
      index := index + 1;
    }
    if index >= |splitAtColons| { return; }
    item.lastModifiedDateTime := ReadQint64(splitAtColons[index]) * 1000;
    if !item.isDirectory && |splitAtColons| > 4 {
      index := index + 1;
      item.hash := Some(FromHex(splitAtColons[index]));
    }
    ret := item;
  }
}
