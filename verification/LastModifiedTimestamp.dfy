// SimplifiedLastModifiedTimestamp: one line for a path and the second it was last modified.
module LastModifiedTimestamp {
  import opened Wrappers
  import opened Text
  import opened ColonEscaping

  // C++ division truncates towards zero.
  function Seconds(msecs: int): int
  {
    if msecs >= 0 then msecs / 1000 else -((-msecs) / 1000)
  }

  lemma WholeSeconds(msecs: int)
    ensures Seconds(msecs) * 1000 == msecs <==> msecs % 1000 == 0
    ensures msecs >= 0 ==> 0 <= msecs - Seconds(msecs) * 1000 < 1000
    ensures msecs <= 0 ==> -1000 < msecs - Seconds(msecs) * 1000 <= 0
  {
  }

  predicate IsQint64(n: int) { -0x8000_0000_0000_0000 <= n < 0x8000_0000_0000_0000 }

  function IllegalDots(): string { "......." }

  function IllegalSlashes(): string { "/////////......\\\\\\\\BUTTS;;;}[" }

  function IllegalMiddle(): string { "0+^%12!@#$%^&*()_+=-`~-/" }

  function IllegalEnd(): string { "oneofthesehastobe<>,.? ]" }

  function IllegalFilePath(): string { IllegalDots() + IllegalSlashes() + IllegalMiddle() + IllegalEnd() }

  lemma IllegalFilePathIsPlaceholder()
    ensures Placeholder(IllegalFilePath(), 7)
  {
    DotsAndSlashes();
    NoColonInTheRest();
    hide IllegalDots; hide IllegalSlashes; hide IllegalMiddle; hide IllegalEnd;
    var dots, rest := IllegalDots(), IllegalSlashes() + (IllegalMiddle() + IllegalEnd());
    MakesPlaceholder(dots, rest, 0);
    assert dots + rest == IllegalFilePath();
  }

  lemma DotsAndSlashes()
    ensures |IllegalDots()| == 7 && '/' !in IllegalDots() && ':' !in IllegalDots()
    ensures |IllegalSlashes()| >= 2 && IllegalSlashes()[0] == '/' && IllegalSlashes()[1] == '/' && ':' !in IllegalSlashes()
  {
  }

  lemma NoColonInTheRest()
    ensures ':' !in IllegalMiddle() && ':' !in IllegalEnd()
  {
  }

  datatype Stamp = Stamp(filePath: string, directory: bool, msecs: int)

  function Printed(s: Stamp): string
  {
    Escaped(s.filePath) + (COLON + IntToString(Seconds(s.msecs)))
  }

  // None: not valid.
  function Parsed(line: string): Option<Stamp>
  {
    var splitAtColons := SkipEmpty(Split(Replace(line, ESCAPED_COLON, IllegalFilePath()), COLON));
    if |splitAtColons| != 2 then None
    else
      match ParseInt(splitAtColons[1], 64)
      case None => None
      case Some(seconds) =>
        var filePath := Replace(splitAtColons[0], IllegalFilePath(), COLON);
        Some(Stamp(filePath, EndsWith(filePath, "/"), seconds * 1000))
  }

  lemma NumberIsPlain(n: int)
    ensures PlainField(IntToString(n))
  {
    var s := IntToString(n);
    assert forall c | c in s :: IsDigit(c) || c == '-';
  }

  // Printing and parsing recovers the path, whether it ends in a slash, and the time in whole
  // seconds, if and only if the path is not empty and does not end in a backslash.
  lemma StampComesBackIff(s: Stamp)
    requires NoDoubledSlash(s.filePath) && IsQint64(s.msecs)
    ensures Parsed(Printed(s)) == Some(Stamp(s.filePath, EndsWith(s.filePath, "/"), Seconds(s.msecs) * 1000))
            <==> s.filePath != "" && !EndsInBackslash(s.filePath)
  {
    IllegalFilePathIsPlaceholder();
    if s.filePath == "" {
      EmptyPathLost(Seconds(s.msecs));
    } else if EndsInBackslash(s.filePath) {
      BackslashLost(s);
    } else {
      StampComesBack(s);
    }
  }

  lemma StampComesBack(s: Stamp)
    requires NoDoubledSlash(s.filePath) && IsQint64(s.msecs) && s.filePath != "" && !EndsInBackslash(s.filePath)
    ensures Parsed(Printed(s)) == Some(Stamp(s.filePath, EndsWith(s.filePath, "/"), Seconds(s.msecs) * 1000))
  {
    hide Replace; hide Split; hide SkipEmpty; hide IntToString; hide ParseInt;
    IllegalFilePathIsPlaceholder();
    var number := IntToString(Seconds(s.msecs));
    NumberIsPlain(Seconds(s.msecs));
    ParseIntOfNumber(Seconds(s.msecs), 64);
    TailSplits([number], "");
    assert Tail([number]) + "" == number;
    LineSplits(s.filePath, number, IllegalFilePath());
    PlaceholdersBack(s.filePath, IllegalFilePath(), 7);
  }

  // A good path and any plain fields behind it: there must be exactly one, and it must be a number.
  lemma OneFieldIsTaken(path: string, fields: seq<string>)
    requires NoDoubledSlash(path) && path != "" && !EndsInBackslash(path)
    requires fields != [] && forall f | f in fields :: PlainField(f)
    ensures Parsed(Escaped(path) + (COLON + Tail(fields)))
            == if |fields| != 1 then None
               else
                 match ParseInt(fields[0], 64)
                 case None => None
                 case Some(seconds) => Some(Stamp(path, EndsWith(path, "/"), seconds * 1000))
  {
    IllegalFilePathIsPlaceholder();
    hide Replace; hide Split; hide SkipEmpty; hide ParseInt; hide IllegalFilePath; hide Tail;
    TailSplits(fields, "");
    assert Tail(fields) + "" == Tail(fields);
    LineSplits(path, Tail(fields), IllegalFilePath());
    PlaceholdersBack(path, IllegalFilePath(), 7);
  }

  lemma EmptyPathLost(n: int)
    ensures Parsed(Escaped("") + (COLON + IntToString(n))) == None
  {
    var number := IntToString(n);
    var line := Escaped("") + (COLON + number);
    assert line == "" + (COLON + number) == "" + COLON + number;
    NumberIsPlain(n);
    EscapedLine("", number, IllegalFilePath());
    FirstColon("", number);
    SplitFirst("", COLON, number);
    ContainedChar(number, COLON, 0);
    SplitNone(number, COLON);
    OnlyOne(number);
  }

  lemma OnlyOne(f: string)
    requires f != ""
    ensures SkipEmpty(["", f]) == [f] && SkipEmpty([f]) == [f] && SkipEmpty([""]) == []
  {
    assert ["", f][1..] == [f] && [f][1..] == [] && [""][1..] == [];
    assert SkipEmpty([f]) == [f] + SkipEmpty([]);
    assert SkipEmpty(["", f]) == [] + SkipEmpty([f]);
  }

  // The colon behind the path is taken for one of its own, so there is only one field.
  lemma BackslashLost(s: Stamp)
    requires EndsInBackslash(s.filePath)
    ensures Parsed(Printed(s)) == None
  {
    var front := s.filePath[..|s.filePath| - 1];
    var number := IntToString(Seconds(s.msecs));
    assert s.filePath == front + "\\";
    NumberIsPlain(Seconds(s.msecs));
    SwallowedColon(front, number, IllegalFilePath());
    IllegalFilePathIsPlaceholder();
    var only := Replace(front, COLON, IllegalFilePath()) + (IllegalFilePath() + number);
    NoColonLeft(front, IllegalFilePath());
    ContainedChar(only, COLON, 0);
    SplitNone(only, COLON);
    OnlyOne(only);
  }

  // ---------- the object ----------

  class SimplifiedLastModifiedTimestamp {
    var filePath: string
    var isDirectory: bool
    var lastModifiedMsecs: int
    var isValid: bool

    // the parsing constructor; a line that cannot be parsed leaves an invalid object
    constructor FromLine(line: string)
      ensures isValid <==> Parsed(line).Some?
      ensures isValid ==> Value() == Parsed(line).value
      ensures !isValid ==> filePath == ""
    {
      var escapedColonsReplaced := Replace(line, ESCAPED_COLON, IllegalFilePath());
      var splitAtColons := SkipEmpty(Split(escapedColonsReplaced, COLON));
      filePath, isDirectory, lastModifiedMsecs, isValid := "", false, 0, false;
      if |splitAtColons| == 2 {
        var seconds := ParseInt(splitAtColons[1], 64);
        if seconds.Some? {
          lastModifiedMsecs := seconds.value * 1000;
          var path := Replace(splitAtColons[0], IllegalFilePath(), COLON);
          filePath, isDirectory, isValid := path, EndsWith(path, "/"), true;
        }
      }
    }

    function Value(): Stamp
      reads this
    {
      Stamp(filePath, isDirectory, lastModifiedMsecs)
    }

    method ToColonSeparatedLineOfText() returns (line: string)
      ensures line == Printed(Value())
    {
      line := Replace(filePath, COLON, ESCAPED_COLON);
      line := line + (COLON + IntToString(Seconds(lastModifiedMsecs)));
    }
  }
}
